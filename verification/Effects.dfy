/** What single requests achieve, what fails leaves behind, and which request undoes which. */
module Effects {
  import opened Options
  import opened Docker
  import opened World
  import opened Reconcile
  import Ports
  import Text
  import B = Databases
  import C = Containers
  import D = Deployments
  import P = Projects
  import R = Requests

  // ------------------------------------------------------- creation, removal

  /** The least unused port of 8000..9999. */
  ghost predicate ChosenByScan(w: World, port: nat) {
    && 8000 <= port <= 9999 && port !in w.UsedByContainers()
    && forall q: nat | 8000 <= q < port :: q in w.UsedByContainers()
  }

  /**
   One STOPPED row as requested, on the requested port or the least free one, and
   one stopped container that it names: of the requested image, "latest" unless a
   tag is given, with that one binding and no volume.  Nothing else is new.
   */
  ghost predicate Created(w: World, dto: C.CreateDto, project: ProjectId, w': World) {
    var id, d := w.nextRow, w.engine.next;
    var tag := if dto.imageTag in {None, Some("")} then "latest" else dto.imageTag.value;
    && id !in w.rows && d !in w.engine.containers && id in w'.rows && w'.rows[id].hostPort.Some?
    && var port := w'.rows[id].hostPort.value;
    && (if dto.hostPort in {None, Some(0)} then ChosenByScan(w, port) else port == dto.hostPort.value)
    && w'.rows == w.rows[id :=
         Row(project, Some(d), dto.name, dto.imageName, tag, dto.internalPort, Some(port), None, STOPPED)]
    && w'.engine.containers == w.engine.containers[d :=
         Container(Spec(dto.name, dto.imageName + ":" + tag, map[dto.internalPort := port], None), false)]
    && w' == w.(rows := w'.rows, nextRow := id + 1, engine := Engine(w'.engine.containers, d + 1))
  }

  lemma CreationAchieves(w: World, user: UserId, project: ProjectId, dto: C.CreateDto, f: Faults)
    requires w.Valid() && C.CreateSpec(w, user, project, dto, f).1 == Ok
    ensures Created(w, dto, project, C.CreateSpec(w, user, project, dto, f).0)
  {
    hide Ports.FreeContainerPort;
  }

  /**
   A creation succeeds exactly under this condition; a failing one leaves the rows alone and
   at most one stopped container.
   */
  lemma CreationSucceedsExactlyWhen(w: World, user: UserId, project: ProjectId, dto: C.CreateDto, f: Faults)
    requires w.Valid()
    ensures var (w', r) := C.CreateSpec(w, user, project, dto, f);
      && (r == Ok <==>
            && project in w.projects && w.projects[project].owner == user
            && (dto.hostPort !in {None, Some(0)} || exists port ::
                8000 <= port <= 9999 && port !in w.UsedByContainers())
            && !w.engine.NameTaken(dto.name) && !f.create && !f.inspect)
      && (r != Ok ==>
            && w' == w.(engine := w'.engine)
            && (forall d | d in w.engine.containers ::
                d in w'.engine.containers && w'.engine.containers[d] == w.engine.containers[d])
            && (forall d | d in w'.engine.containers && d !in w.engine.containers ::
                d == w.engine.next && !w'.engine.containers[d].running))
  {
    if project in w.projects && w.projects[project].owner == user && NonZero(dto.hostPort).None? {
      var port := Ports.FreeContainerPort(w.UsedByContainers());
      assert port.Some? ==>
          Ports.FIRST_CONTAINER_PORT <= port.value <= Ports.LAST_CONTAINER_PORT && port.value !in w.UsedByContainers();
    }
  }

  /** Removing the container just created brings back the rows and the containers. */
  lemma RemovalUndoesCreation(w: World, user: UserId, project: ProjectId, dto: C.CreateDto, f: Faults)
    requires w.Valid() && C.CreateSpec(w, user, project, dto, f).1 == Ok
    ensures var w' := C.CreateSpec(w, user, project, dto, f).0;
      var (w'', r) := C.RemoveSpec(w', w.nextRow, user, NO_FAULTS);
      r == Ok && w'' == w.(nextRow := w.nextRow + 1, engine := Engine(w.engine.containers, w.engine.next + 1))
  {
    var w' := C.CreateSpec(w, user, project, dto, f).0;
    assert w'.engine.containers - {w.engine.next} == w.engine.containers;
    assert w'.rows - {w.nextRow} == w.rows;
  }

  /**
   A removal takes the row whatever fails.  Its container stays exactly when the
   removal call failed, and then still runs exactly when stopping it failed too.
   */
  lemma RemovalAchieves(w: World, id: RowId, user: UserId, f: Faults)
    requires w.Valid() && Access(w, id, user, false) == Ok
    ensures var (w', r) := C.RemoveSpec(w, id, user, f);
      && r == Ok && w'.rows == w.rows - {id}
      && (forall d | d in w.engine.containers && w.rows[id].dockerId != Some(d) ::
            d in w'.engine.containers && w'.engine.containers[d] == w.engine.containers[d])
      && (forall d | d in w'.engine.containers :: d in w.engine.containers)
      && (forall d | w.rows[id].dockerId == Some(d) && d in w.engine.containers ::
            && (d in w'.engine.containers <==> d in f.remove)
            && (d in f.remove ==>
                  && w'.engine.containers[d].spec == w.engine.containers[d].spec
                  && (w'.engine.containers[d].running <==> w.engine.containers[d].running && d in f.stop)))
  {
  }

  /** Some row of the project names container d. */
  ghost predicate NamedIn(w: World, p: ProjectId, d: DockerId) {
    exists r | r in w.rows :: w.rows[r].project == p && w.rows[r].dockerId == Some(d)
  }

  lemma TargetsAreNamed(w: World, p: ProjectId)
    ensures forall d :: d in P.Targets(w, p, false) <==> NamedIn(w, p, d)
  {
  }

  /**
   Removing a project takes its rows and deployments and no others, whatever
   fails.  Of its containers exactly those stay whose removal failed, and one
   that stays still runs exactly when stopping it failed too.
   */
  lemma ProjectRemovalAchieves(w: World, p: ProjectId, user: UserId, f: Faults)
    requires w.Valid() && p in w.projects && w.projects[p].owner == user
    ensures var (w', r) := P.RemoveSpec(w, p, user, f);
      && r == Ok && w'.projects == w.projects - {p} && w'.databases == w.databases
      && (forall id :: id in w'.rows <==> id in w.rows && w.rows[id].project != p)
      && (forall id | id in w'.rows :: w'.rows[id] == w.rows[id])
      && (forall n :: n in w'.deployments <==> n in w.deployments && w.deployments[n].project != p)
      && (forall n | n in w'.deployments :: w'.deployments[n] == w.deployments[n])
      && (forall d | d in w'.engine.containers :: d in w.engine.containers)
      && (forall d | d in w.engine.containers && !NamedIn(w, p, d) ::
            d in w'.engine.containers && w'.engine.containers[d] == w.engine.containers[d])
      && (forall d | d in w.engine.containers && NamedIn(w, p, d) ::
            && (d in w'.engine.containers <==> d in f.remove)
            && (d in f.remove ==>
                  && w'.engine.containers[d].spec == w.engine.containers[d].spec
                  && (w'.engine.containers[d].running <==> w.engine.containers[d].running && d in f.stop)))
  {
    hide P.Targets;
    TargetsAreNamed(w, p);
  }

  // --------------------------------------------------------------- start, stop

  /**
   Starting succeeds exactly when the container is there and the call goes through; a failing
   start changes nothing.
   */
  lemma StartAchieves(w: World, id: RowId, user: UserId, f: Faults)
    requires Access(w, id, user, false) == Ok && w.rows[id].dockerId.Some?
    ensures var (w', r) := C.StartSpec(w, id, user, f);
      var d := w.rows[id].dockerId.value;
      && (r == Ok <==> d in w.engine.containers && d !in f.start)
      && (r != Ok ==> w' == w)
      && (r == Ok ==>
            && w'.rows == w.rows[id := w.rows[id].(status := RUNNING)]
            && w'.engine.containers == w.engine.containers[d := w.engine.containers[d].(running := true)])
  {
    var d := w.rows[id].dockerId.value;
    if d in w.engine.containers && w.engine.containers[d].running {
      assert w.engine.containers[d := w.engine.containers[d].(running := true)] == w.engine.containers;
    }
  }

  /**
   Stopping succeeds exactly when the container is there, runs, and the call goes
   through: a stopped container is an error.  A failing stop changes nothing.
   */
  lemma StopAchieves(w: World, id: RowId, user: UserId, f: Faults)
    requires Access(w, id, user, false) == Ok && w.rows[id].dockerId.Some?
    ensures var (w', r) := C.StopSpec(w, id, user, f);
      var d := w.rows[id].dockerId.value;
      && (r == Ok <==> d in w.engine.containers && w.engine.containers[d].running && d !in f.stop)
      && (r != Ok ==> w' == w && r == ServerError)
      && (r == Ok ==>
            && w'.rows == w.rows[id := w.rows[id].(status := STOPPED)]
            && w'.engine.containers == w.engine.containers[d := w.engine.containers[d].(running := false)])
  {
  }

  /** A stop after a start of a stopped container brings back the whole world. */
  lemma StopUndoesStart(w: World, id: RowId, user: UserId, f: Faults)
    requires C.StartSpec(w, id, user, f).1 == Ok
    requires w.rows[id].status == STOPPED && !w.engine.containers[w.rows[id].dockerId.value].running
    ensures C.StopSpec(C.StartSpec(w, id, user, f).0, id, user, NO_FAULTS) == (w, Ok)
  {
    var d := w.rows[id].dockerId.value;
    StartAchieves(w, id, user, f);
    var w1 := C.StartSpec(w, id, user, f).0;
    assert w1.engine.containers[d := w1.engine.containers[d].(running := false)] == w.engine.containers;
    assert w1.rows[id := w1.rows[id].(status := STOPPED)] == w.rows;
  }

  /** Some RUNNING row of the project names container d. */
  ghost predicate NamedRunning(w: World, p: ProjectId, d: DockerId) {
    exists r | r in w.rows :: w.rows[r].project == p && w.rows[r].status == RUNNING && w.rows[r].dockerId == Some(d)
  }

  /** Nothing but the running flags, the statuses of the project's rows and its own status is different. */
  ghost predicate OnlySwitched(w: World, p: ProjectId, w': World) {
    && w' == w.(engine := w.engine.(containers := w'.engine.containers), rows := w'.rows, projects := w'.projects)
    && w'.engine.containers.Keys == w.engine.containers.Keys && w'.rows.Keys == w.rows.Keys
    && (forall d | d in w.engine.containers :: w'.engine.containers[d].spec == w.engine.containers[d].spec)
    && (forall r | r in w.rows :: w'.rows[r] == w.rows[r].(status := w'.rows[r].status))
    && (forall r | r in w.rows && w.rows[r].project != p :: w'.rows[r] == w.rows[r])
  }

  /**
   A suspension makes the project INACTIVE and its RUNNING rows STOPPED, and stops
   the containers these named, except those whose call fails; it switches nothing else.
   */
  lemma SuspensionAchieves(w: World, p: ProjectId, f: Faults)
    requires p in w.projects
    ensures var (w', r) := P.SuspendSpec(w, p, f);
      && r == Ok && OnlySwitched(w, p, w') && w'.projects == w.projects[p := w.projects[p].(status := INACTIVE)]
      && (forall r | r in w.rows && w.rows[r].project == p ::
            w'.rows[r].status == if w.rows[r].status == RUNNING then STOPPED else w.rows[r].status)
      && (forall d | d in w.engine.containers ::
            w'.engine.containers[d].running <==>
              w.engine.containers[d].running && (d in f.stop || !NamedRunning(w, p, d)))
  {
    hide P.Targets;
    forall d ensures d in P.Targets(w, p, true) <==> NamedRunning(w, p, d) {
      RunningTargetsAreNamed(w, p, d);
    }
  }

  lemma RunningTargetsAreNamed(w: World, p: ProjectId, d: DockerId)
    ensures d in P.Targets(w, p, true) <==> NamedRunning(w, p, d)
  {
  }

  /**
   A resumption makes the project ACTIVE and all its rows RUNNING, and starts all its
   containers but those whose call fails.
   */
  lemma ResumptionAchieves(w: World, p: ProjectId, f: Faults)
    requires p in w.projects
    ensures var (w', r) := P.ResumeSpec(w, p, f);
      && r == Ok && OnlySwitched(w, p, w') && w'.projects == w.projects[p := w.projects[p].(status := ACTIVE)]
      && (forall r | r in w.rows && w.rows[r].project == p :: w'.rows[r].status == RUNNING)
      && (forall d | d in w.engine.containers ::
            w'.engine.containers[d].running <==> w.engine.containers[d].running || (NamedIn(w, p, d) && d !in f.start))
  {
    hide P.Targets;
    TargetsAreNamed(w, p);
  }

  /** Resuming right after a suspension brings back a project all of whose containers ran. */
  lemma ResumptionUndoesSuspension(w: World, p: ProjectId)
    requires p in w.projects && w.projects[p].status == ACTIVE
    requires forall r | r in w.RowsOf(p) :: w.rows[r].status == RUNNING
    requires forall d | d in w.engine.containers && d in P.Targets(w, p, false) :: w.engine.containers[d].running
    ensures P.ResumeSpec(P.SuspendSpec(w, p, NO_FAULTS).0, p, NO_FAULTS) == (w, Ok)
  {
    var w1 := P.SuspendSpec(w, p, NO_FAULTS).0;
    assert P.LoopRows(w, p, true) == P.LoopRows(w, p, false) == P.LoopRows(w1, p, false);
    assert P.Targets(w1, p, false) == P.Targets(w, p, false) == P.Targets(w, p, true);
    var w2 := P.ResumeSpec(w1, p, NO_FAULTS).0;
    assert w2.engine.containers == w.engine.containers;
    assert w2.rows == w.rows;
    assert w2.projects == w.projects;
  }

  // --------------------------------------------------------------- port drift

  /**
   `findFirst` answers with another row: one holds the port, and it is not the row itself
   that the query meets first.
   */
  ghost predicate MeetsOther(w: World, id: RowId, port: nat, ownFirst: bool) {
    && id in w.rows && (exists r | r in w.rows :: r != id && w.rows[r].hostPort == Some(port))
    && (w.rows[id].hostPort == Some(port) ==> !ownFirst)
  }

  /**
   Allocating a port of one's own container is refused exactly when it lies outside
   19000..25999 or the query meets another row that holds it.  Otherwise it moves
   the row and nothing else, and reports an error exactly when a changed port cannot
   be written for the project's domain.
   */
  lemma AllocationSucceedsExactlyWhen(w: World, id: RowId, user: UserId, port: nat, ownFirst: bool, f: Faults)
    requires Access(w, id, user, false) == Ok
    ensures var (w', r) := C.AllocatePortSpec(w, id, user, port, ownFirst, f);
      var domain := w.projects[w.rows[id].project].domain;
      if !(19000 <= port <= 25999) || MeetsOther(w, id, port, ownFirst) then r == Forbidden && w' == w
      else
        && w' == w.(rows := w.rows[id := w.rows[id].(hostPort := Some(port))])
        && var unwritten := f.nginx && domain !in {None, Some("")} && w.rows[id].hostPort != Some(port);
        r == (if unwritten then ServerError else Ok)
  {
  }

  /**
   Allocating a port only moves the row; the next restart that returns makes the
   container follow, by a new container exactly when the port was not bound yet.
   */
  lemma RestartBindsAllocatedPort(w: World, id: RowId, user: UserId, port: nat, ownFirst: bool, f: Faults, g: Faults)
    requires w.Valid() && C.AllocatePortSpec(w, id, user, port, ownFirst, f).1 == Ok && w.rows[id].dockerId.Some?
    ensures var w1 := C.AllocatePortSpec(w, id, user, port, ownFirst, f).0;
      var (w2, r) := C.RestartSpec(w1, id, user, g);
      && w1.engine == w.engine
      && (r == Ok ==>
            var d, before := w2.rows[id].dockerId.value, w.rows[id].dockerId.value;
            && Reconciled(w2, id) && w.rows[id].internalPort in w2.engine.containers[d].spec.bindings
            && w2.engine.containers[d].spec.bindings[w.rows[id].internalPort] == port
            && (d == before <==>
                  && before in w.engine.containers
                  && w.rows[id].internalPort in w.engine.containers[before].spec.bindings
                  && w.engine.containers[before].spec.bindings[w.rows[id].internalPort] == port))
  {
    var w1 := C.AllocatePortSpec(w, id, user, port, ownFirst, f).0;
    assert w1.Valid();
    RestartReconciles(w1, id, user, g);
    if C.RestartSpec(w1, id, user, g).1 == Ok && C.Drifted(w1, id) {
      RecreatedRow(w1, id, w.rows[id].dockerId.value, g);
    }
  }

  /** Clearing the port only changes the row; the next restart that returns leaves the container without a binding. */
  lemma RestartDropsClearedPort(w: World, id: RowId, user: UserId, g: Faults)
    requires w.Valid() && C.RemovePortSpec(w, id, user).1 == Ok && w.rows[id].dockerId.Some?
    ensures var w1 := C.RemovePortSpec(w, id, user).0;
      var (w2, r) := C.RestartSpec(w1, id, user, g);
      && w1 == w.(rows := w.rows[id := w.rows[id].(hostPort := None)])
      && (r == Ok ==>
            && Reconciled(w2, id)
            && w.rows[id].internalPort !in w2.engine.containers[w2.rows[id].dockerId.value].spec.bindings)
  {
    var w1 := C.RemovePortSpec(w, id, user).0;
    assert w1.Valid();
    RestartReconciles(w1, id, user, g);
  }

  // ----------------------------------------------------------------- databases

  /**
   A running container of the requested kind on the least port from 40000 that no container
   row and no database holds.
   */
  ghost predicate Provisioned(w: World, user: UserId, dto: B.CreateDto, w': World) {
    var b, d := w.nextDatabase, w.engine.next;
    var postgres := dto.kind == B.POSTGRESQL;
    var internalPort := if postgres then 5432 else 3306;
    var image := if postgres then "postgres:" + (if dto.version == "latest" then "15-alpine" else dto.version)
      else "mysql:" + (if dto.version == "latest" then "8" else dto.version);
    && b in w'.databases
    && var port := w'.databases[b].hostPort;
    && port >= 40000 && !TakenPort(w, port) && (forall q: nat | 40000 <= q < port :: TakenPort(w, q))
    && w'.databases == w.databases[b := ManagedDatabase(user, Some(d), internalPort, port, RUNNING)]
    && w'.engine.containers == w.engine.containers[d := Container(
         Spec("portdock-db-" + Text.Dashed(Text.Lower(dto.name)), image, map[internalPort := port],
              Some("portdock-dbvol-" + Text.Show(b))), true)]
  }

  ghost predicate TakenPort(w: World, port: nat) {
    || (exists r | r in w.rows :: w.rows[r].hostPort == Some(port))
    || (exists b | b in w.databases :: w.databases[b].hostPort == port)
  }

  lemma UsedIsTaken(w: World, port: nat)
    ensures port in B.UsedPorts(w) <==> TakenPort(w, port)
  {
    if b :| b in w.databases && w.databases[b].hostPort == port {
      assert port in w.UsedByDatabases();
    }
    if r :| r in w.rows && w.rows[r].hostPort == Some(port) {
      assert port in w.UsedByContainers();
    }
  }

  /** What provisioning makes, on the port the scan answers. */
  lemma ProvisionedRow(w: World, user: UserId, dto: B.CreateDto, f: Faults, port: nat)
    requires w.Valid() && B.CreateSpec(w, user, dto, f).1 == Ok
    requires port == Ports.FreeDatabasePort(B.UsedPorts(B.WithPlaceholder(w, user, dto.kind)))
    ensures var w' := B.CreateSpec(w, user, dto, f).0;
      var internalPort := if dto.kind == B.POSTGRESQL then 5432 else 3306;
      var b, d := w.nextDatabase, w.engine.next;
      && dto.kind in {B.POSTGRESQL, B.MYSQL}
      && w'.databases == w.databases[b := ManagedDatabase(user, Some(d), internalPort, port, RUNNING)]
      && w'.engine.containers == w.engine.containers[d := Container(B.NewSpec(dto, b, port), true)]
  {
    hide Ports.FreeDatabasePort, B.UsedPorts, B.NewSpec;
    var placed, b := B.WithPlaceholder(w, user, dto.kind), w.nextDatabase;
    B.ProvisionOneContainer(placed, b, dto, f);
    var w' := B.CreateSpec(w, user, dto, f).0;
    assert w'.databases == placed.databases[b := w'.databases[b]];
  }

  lemma LeastPort(w: World, user: UserId, kind: B.DatabaseType)
    requires w.Valid()
    ensures var port := Ports.FreeDatabasePort(B.UsedPorts(B.WithPlaceholder(w, user, kind)));
      port >= 40000 && !TakenPort(w, port) && forall q: nat | 40000 <= q < port :: TakenPort(w, q)
  {
    hide B.UsedPorts, B.WithPlaceholder;
    B.PlaceholderPorts(w, user, kind);
    forall q: nat ensures q in B.UsedPorts(w) <==> TakenPort(w, q) {
      UsedIsTaken(w, q);
    }
  }

  /**
   Provisioning succeeds exactly for the two supported kinds, when the name is free
   and no call fails, and then makes what was requested; otherwise it answers with
   an error and leaves all rows and databases as they were.
   */
  lemma ProvisioningSucceedsExactlyWhen(w: World, user: UserId, dto: B.CreateDto, f: Faults)
    requires w.Valid()
    ensures var (w', r) := B.CreateSpec(w, user, dto, f);
      && (r == Ok <==>
            && dto.kind in {B.POSTGRESQL, B.MYSQL}
            && !w.engine.NameTaken("portdock-db-" + Text.Dashed(Text.Lower(dto.name)))
            && !f.volume && !f.build && !f.create && !f.inspect && w.engine.next !in f.start)
      && (r == Ok ==> Provisioned(w, user, dto, w'))
      && (r != Ok ==> r == ServerError && w'.databases == w.databases)
      && w'.rows == w.rows && w'.projects == w.projects && w'.deployments == w.deployments
  {
    hide Ports.FreeDatabasePort, B.UsedPorts, B.Serves;
    B.CreateIsAllOrNothing(w, user, dto, f);
    if B.CreateSpec(w, user, dto, f).1 == Ok {
      hide B.CreateSpec, B.ProvisionSpec, TakenPort;
      ProvisionedRow(w, user, dto, f, Ports.FreeDatabasePort(B.UsedPorts(B.WithPlaceholder(w, user, dto.kind))));
      LeastPort(w, user, dto.kind);
      assert "postgres" + ":" == "postgres:" && "mysql" + ":" == "mysql:";
    }
  }

  /** Removing a database takes its row whatever fails; its container stays exactly when its removal call failed. */
  lemma DatabaseRemovalAchieves(w: World, b: DatabaseId, user: UserId, f: Faults)
    requires b in w.databases && w.databases[b].owner == user
    ensures var (w', r) := B.RemoveSpec(w, b, user, f);
      && r == Ok && w' == w.(databases := w.databases - {b}, engine := w.engine.(containers := w'.engine.containers))
      && (forall d | d in w'.engine.containers :: d in w.engine.containers)
      && (forall d | d in w.engine.containers && w.databases[b].dockerId != Some(d) ::
            d in w'.engine.containers && w'.engine.containers[d] == w.engine.containers[d])
      && (forall d | d in w.engine.containers && w.databases[b].dockerId == Some(d) ::
            && (d in w'.engine.containers <==> d in f.remove)
            && (d in f.remove ==>
                  && w'.engine.containers[d].spec == w.engine.containers[d].spec
                  && (w'.engine.containers[d].running <==> w.engine.containers[d].running && d in f.stop)))
  {
  }

  // -------------------------------------------------------------------- access

  /** The request is about a row, a project or a database that does not exist. */
  predicate AsksForMissing(w: World, req: R.Request) {
    match req
    case CreateContainer(_, project, _) => project !in w.projects
    case StartContainer(id, _) => id !in w.rows
    case StopContainer(id, _) => id !in w.rows
    case RestartContainer(id, _) => id !in w.rows
    case RemoveContainer(id, _) => id !in w.rows
    case UpdateResources(id, _, _, _) => id !in w.rows
    case AllocatePort(id, _, _, _) => id !in w.rows
    case RemovePort(id, _) => id !in w.rows
    case Deploy(_, project, _) => project !in w.projects
    case RemoveProject(project, _) => project !in w.projects
    case RemoveDatabase(b, _) => b !in w.databases
    case _ => false
  }

  predicate OwnsRow(w: World, id: RowId, user: UserId) {
    id in w.rows && w.rows[id].project in w.projects && w.projects[w.rows[id].project].owner == user
  }

  /** The request comes from somebody else than the owner, and not from an administrator. */
  predicate ComesFromStranger(w: World, req: R.Request) {
    match req
    case CreateContainer(user, project, _) => project in w.projects && w.projects[project].owner != user
    case StartContainer(id, user) => id in w.rows && !OwnsRow(w, id, user)
    case StopContainer(id, user) => id in w.rows && !OwnsRow(w, id, user)
    case RestartContainer(id, user) => id in w.rows && !OwnsRow(w, id, user)
    case RemoveContainer(id, user) => id in w.rows && !OwnsRow(w, id, user)
    case UpdateResources(id, user, _, isAdmin) => id in w.rows && !OwnsRow(w, id, user) && !isAdmin
    case AllocatePort(id, user, _, _) => id in w.rows && !OwnsRow(w, id, user)
    case RemovePort(id, user) => id in w.rows && !OwnsRow(w, id, user)
    case Deploy(user, project, _) => project in w.projects && w.projects[project].owner != user
    case RemoveProject(project, user) => project in w.projects && w.projects[project].owner != user
    case RemoveDatabase(b, user) => b in w.databases && w.databases[b].owner != user
    case _ => false
  }

  /**
   What nobody owns is not found, what somebody else owns is forbidden, and neither
   changes anything; an owner is never turned away so, but for a row without a
   container and for a port that cannot be had.
   */
  lemma RequestsAreRefusedExactlyWhen(w: World, req: R.Request, f: Faults)
    requires w.Valid()
    ensures AsksForMissing(w, req) ==> R.Apply(w, req, f) == (w, NotFound)
    ensures ComesFromStranger(w, req) ==> R.Apply(w, req, f) == (w, Forbidden)
    ensures !AsksForMissing(w, req) && !ComesFromStranger(w, req) ==>
      && (R.Apply(w, req, f).1 == Forbidden ==> req.AllocatePort?)
      && (R.Apply(w, req, f).1 == NotFound ==>
            (req.StartContainer? || req.StopContainer? || req.RestartContainer?) && w.rows[req.id].dockerId.None?)
  {
    hide C.RebuildSpec, C.RecreateSpec, C.TornDown, D.LaunchSpec, D.CommitSpec, B.ProvisionSpec;
    hide P.Purged, P.SetRunning, P.SetStatus, Engine.Create, Engine.Start, Engine.Stop, C.ChosenPort;
    if req.Deploy? {
      DeployAnswers(w, req.user, req.project, req.input, f);
    }
  }

  lemma DeployAnswers(w: World, user: UserId, p: ProjectId, input: D.DeployInput, f: Faults)
    ensures D.DeploySpec(w, user, p, input, f).1 in {Ok, NotFound, Forbidden, BadRequest}
    ensures p in w.projects && w.projects[p].owner == user ==> D.DeploySpec(w, user, p, input, f).1 in {Ok, BadRequest}
  {
    if p in w.projects && w.projects[p].owner == user {
      D.DeployEndsConsistently(w, user, p, input, f);
    }
  }
}
