/** The repository table that the assistant's transaction changes
    (internal/platform/assistantstore/store.go, AddRepository). */
module Catalog {
  import opened Text
  import opened Projects
  import A = Assistant

  const MAX_REPOSITORIES := 20

  /** A locked project row with the repositories that reference it. */
  datatype ProjectRow = ProjectRow(workspace: int, state: string, version: int, repositories: seq<Repository>)

  /** What the executor's surroundings answer: the canonical form of the URL, if it has one, the identifier for the
      repository, whether database and identifier source work, and whether the acknowledgement of a commit arrives. */
  datatype Setting = Setting(canonical: Option<string>, repositoryID: int, available: bool, acknowledged: bool)

  /** The transaction of the executor: all of it or, on any refusal, none of it. */
  function AddRepository(projects: map<int, ProjectRow>, workspace: int, input: A.RepositoryAdd, setting: Setting)
    : (r: Result<map<int, ProjectRow>, A.Error>)
  {
    if setting.canonical.None? || !ValidRole(input.role) then Err(A.Invalid)
    else if !setting.available then Err(A.Conflict)
    else if input.projectID !in projects || projects[input.projectID].workspace != workspace then Err(A.NotFound)
    else
      var row := projects[input.projectID];
      if row.state != "active" || row.version != input.projectVersion then Err(A.StateChanged)
      else if |row.repositories| >= MAX_REPOSITORIES then Err(A.QuotaExceeded)
      else
        var kept := if input.role == PRIMARY then Demote(row.repositories) else row.repositories;
        var added := Repository(setting.repositoryID, input.projectID, setting.canonical.value, input.role, 1);
        Ok(projects[input.projectID := row.(version := row.version + 1, repositories := kept + [added])])
  }

  /** Why an add is refused, the first of several reasons. */
  lemma AddRepositoryErrors(projects: map<int, ProjectRow>, workspace: int, input: A.RepositoryAdd, setting: Setting)
    ensures var out := AddRepository(projects, workspace, input, setting);
            var wellFormed := setting.canonical.Some? && input.role in {"primary", "core", "documentation", "examples", "sdk", "other"};
            var found := input.projectID in projects && projects[input.projectID].workspace == workspace;
            && (out == Err(A.Invalid) <==> !wellFormed)
            && (out == Err(A.Conflict) <==> wellFormed && !setting.available)
            && (out == Err(A.NotFound) <==> wellFormed && setting.available && !found)
            && (out == Err(A.StateChanged) <==>
                  && wellFormed && setting.available && found
                  && (projects[input.projectID].state != "active" || projects[input.projectID].version != input.projectVersion))
            && (out == Err(A.QuotaExceeded) <==>
                  && wellFormed && setting.available && found && projects[input.projectID].state == "active"
                  && projects[input.projectID].version == input.projectVersion && |projects[input.projectID].repositories| >= 20)
  {
  }

  /** A committed add keeps exactly one primary, stays within the quota, advances the version by one,
      appends the requested repository under its canonical URL, turns a former primary into a core repository and
      touches nothing else; it is refused only for one of the stated reasons. */
  lemma AddRepositoryKeeps(projects: map<int, ProjectRow>, workspace: int, input: A.RepositoryAdd, setting: Setting)
    ensures match AddRepository(projects, workspace, input, setting)
            case Err(_) =>
              !(&& setting.canonical.Some? && setting.available && input.projectID in projects
                && input.role in {"primary", "core", "documentation", "examples", "sdk", "other"}
                && projects[input.projectID].workspace == workspace && projects[input.projectID].state == "active"
                && projects[input.projectID].version == input.projectVersion && |projects[input.projectID].repositories| < 20)
            case Ok(after) =>
              && input.projectID in projects && after.Keys == projects.Keys
              && (forall id :: id in projects && id != input.projectID ==> after[id] == projects[id])
              && var was, now := projects[input.projectID], after[input.projectID];
                 && was.version == input.projectVersion && now.version == was.version + 1 && was.state == "active"
                 && |now.repositories| == |was.repositories| + 1 <= 20 && now.workspace == was.workspace == workspace && now.state == was.state
                 && (forall i :: 0 <= i < |was.repositories| ==>
                       var r := was.repositories[i];
                       now.repositories[i] == if input.role == "primary" && r.role == "primary" then r.(role := "core", version := r.version + 1) else r)
                 && var added := now.repositories[|was.repositories|];
                 && Some(added.url) == setting.canonical && added.role == input.role && added.id == setting.repositoryID
                 && added.projectID == input.projectID && added.version == 1
                 && (Primaries(was.repositories) == 1 ==> Primaries(now.repositories) == 1)
                 && (input.role == PRIMARY ==> Primaries(now.repositories) == 1)
  {
    hide Primaries;
    var out := AddRepository(projects, workspace, input, setting);
    if out.Ok? {
      var was := projects[input.projectID];
      var kept := if input.role == PRIMARY then Demote(was.repositories) else was.repositories;
      DemoteLeavesNone(was.repositories);
      PrimariesAppend(kept, Repository(setting.repositoryID, input.projectID, setting.canonical.value, input.role, 1));
    }
  }
}
