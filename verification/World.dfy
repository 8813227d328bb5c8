/**
 The two worlds a request works on: the rows of the database and the Docker
 engine.  `World` is their joint value; `Store` is the database as an object.
 */
module World {
  import opened Options
  import opened Docker

  type UserId = nat
  type ProjectId = nat
  type RowId = nat
  type DeploymentId = nat
  type DatabaseId = nat

  datatype ContainerStatus = RUNNING | STOPPED | BUILDING | ERROR | REMOVING

  datatype ProjectStatus = ACTIVE | INACTIVE | IN_BUILD | FAILED

  datatype DeploymentStatus = InProgress | Success | Failed

  datatype Project = Project(
    owner: UserId, name: string, domain: Option<string>, repository: Option<string>, status: ProjectStatus)

  datatype Row = Row(
    project: ProjectId, dockerId: Option<DockerId>, name: string, imageName: string, imageTag: string,
    internalPort: nat, hostPort: Option<nat>, mount: Option<string>, status: ContainerStatus)

  datatype Deployment = Deployment(project: ProjectId, status: DeploymentStatus, progress: nat)

  datatype ManagedDatabase = ManagedDatabase(
    owner: UserId, dockerId: Option<DockerId>, internalPort: nat, hostPort: nat, status: ContainerStatus)

  /** How a request ends: normally, or with the HTTP exception it throws. */
  datatype Outcome = Ok | NotFound | Forbidden | BadRequest | ServerError

  /**
   Which calls of one request fail for reasons outside the model.  `stop`,
   `start` and `remove` name the containers whose call fails, for the requests
   that loop over many; the other fields are single calls.
   */
  datatype Faults = Faults(
    prepare: bool, build: bool, volume: bool, inspect: bool, create: bool, update: bool, restart: bool,
    removeNamed: bool, nginx: bool, nginxSync: bool,
    stop: set<DockerId>, start: set<DockerId>, remove: set<DockerId>)

  const NO_FAULTS := Faults(false, false, false, false, false, false, false, false, false, false, {}, {}, {})

  datatype World = World(
    projects: map<ProjectId, Project>, rows: map<RowId, Row>, nextRow: RowId,
    deployments: map<DeploymentId, Deployment>, nextDeployment: DeploymentId,
    databases: map<DatabaseId, ManagedDatabase>, nextDatabase: DatabaseId,
    engine: Engine) {

    /** What the database schema and the engine's id counter enforce by themselves. */
    ghost predicate Valid() {
      && engine.Valid()
      && (forall r | r in rows :: r < nextRow && rows[r].project in projects)
      && (forall r | r in rows :: rows[r].dockerId.Some? ==> rows[r].dockerId.value < engine.next)
      && (forall b | b in databases :: b < nextDatabase)
      && (forall b | b in databases :: databases[b].dockerId.Some? ==> databases[b].dockerId.value < engine.next)
      && (forall n | n in deployments :: n < nextDeployment && deployments[n].project in projects)
    }

    function SetRow(r: RowId, row: Row): World {
      this.(rows := rows[r := row])
    }

    function UsedByContainers(): set<nat> {
      set r | r in rows && rows[r].hostPort.Some? :: rows[r].hostPort.value
    }

    function UsedByDatabases(): set<nat> {
      set b | b in databases :: databases[b].hostPort
    }

    function RowsOf(p: ProjectId): set<RowId> {
      set r | r in rows && rows[r].project == p
    }
  }

  /** `findOne`: the row must exist and its project belong to the user. */
  function Access(w: World, id: RowId, user: UserId, isAdmin: bool): Outcome {
    if id !in w.rows || w.rows[id].project !in w.projects then NotFound
    else if !isAdmin && w.projects[w.rows[id].project].owner != user then Forbidden
    else Ok
  }

  function Tag(tag: string): string {
    if tag == "" then "latest" else tag
  }

  function Image(name: string, tag: string): string {
    name + ":" + tag
  }

  /** The host port a container should be bound to: null and 0 mean none. */
  function ExpectedPort(row: Row): Option<nat> {
    NonZero(row.hostPort)
  }

  function Bindings(internalPort: nat, hostPort: Option<nat>): map<nat, nat> {
    match NonZero(hostPort)
    case None => map[]
    case Some(p) => map[internalPort := p]
  }

  /** Whether a request has an Nginx file to write for this row. */
  predicate Routed(w: World, row: Row) {
    && ExpectedPort(row).Some?
    && row.project in w.projects
    && Filled(w.projects[row.project].domain).Some?
  }

  /** The database as an object.  Its writes do not fail. */
  class Store {
    var projects: map<ProjectId, Project>
    var rows: map<RowId, Row>
    var nextRow: RowId
    var deployments: map<DeploymentId, Deployment>
    var nextDeployment: DeploymentId
    var databases: map<DatabaseId, ManagedDatabase>
    var nextDatabase: DatabaseId

    ghost function With(engine: Engine): World
      reads this
    {
      World(projects, rows, nextRow, deployments, nextDeployment, databases, nextDatabase, engine)
    }
  }
}
