/**
 The project registry (internal/core/domain/project.go, internal/adapter/output/state): a table
 of projects that only ever grows, and whose rows change only from active to archived.
 */
module Projects {
  import opened Wrappers

  const PROJECT_ID_MAX_LEN := 64

  predicate IdChar(c: char) {
    'a' <= c <= 'z' || 'A' <= c <= 'Z' || '0' <= c <= '9' || c == '_' || c == '-'
  }

  predicate ValidProjectId(id: string) {
    1 <= |id| <= PROJECT_ID_MAX_LEN && forall c | c in id :: IdChar(c)
  }

  /** One to 64 ASCII digits, letters, underscores and hyphens. */
  lemma IdExactly(id: string)
    ensures ValidProjectId(id) <==>
      && 1 <= |id| <= 64
      && forall c: char | c in id ::
           var n := c as int; 48 <= n <= 57 || 65 <= n <= 90 || 97 <= n <= 122 || n == 95 || n == 45
  {
  }

  datatype ProjectStatus = Active | Archived

  /** The columns a caller supplies. */
  datatype Fields = Fields(org: string, repo: string, workspace: string, channel: string, installation: int)

  datatype Project = Project(fields: Fields, status: ProjectStatus, createdAt: int, archivedAt: Option<int>)

  type Table = map<string, Project>

  datatype RegistryError = InvalidProjectId | AlreadyExists | NotFound

  /** INSERT: status and creation time are the table's defaults, whatever the caller passed. */
  function AddRow(projects: Table, id: string, fields: Fields, now: int): Result<Table, RegistryError> {
    if !ValidProjectId(id) then Err(InvalidProjectId)
    else if id in projects then Err(AlreadyExists)
    else Ok(projects[id := Project(fields, Active, now, None)])
  }

  /** UPDATE: archiving twice keeps the first archive time. */
  function ArchiveRow(projects: Table, id: string, now: int): Result<Table, RegistryError> {
    if id !in projects then Err(NotFound)
    else
      var p := projects[id];
      Ok(projects[id := p.(status := Archived, archivedAt := if p.archivedAt.Some? then p.archivedAt else Some(now))])
  }

  /** What every later table keeps of an earlier one. */
  ghost predicate Grows(before: Table, after: Table) {
    forall id | id in before ::
      && id in after
      && after[id].fields == before[id].fields && after[id].createdAt == before[id].createdAt
      && (before[id].status == Archived ==> after[id].status == Archived)
      && (before[id].archivedAt.Some? ==> after[id].archivedAt == before[id].archivedAt)
  }

  lemma RowsGrow(projects: Table, id: string, fields: Fields, now: int)
    ensures AddRow(projects, id, fields, now).Ok? ==> Grows(projects, AddRow(projects, id, fields, now).value)
    ensures ArchiveRow(projects, id, now).Ok? ==> Grows(projects, ArchiveRow(projects, id, now).value)
  {
  }
}
