/** Host ports over runs of all requests: three allocators that do not look at each other, and no collision. */
module PortSafety {
  import opened Options
  import opened Docker
  import opened World
  import opened Requests
  import opened Lifecycle
  import Ports
  import C = Containers
  import D = Deployments
  import P = Projects
  import B = Databases

  /** The host port a claimant holds; a database row still in provisioning holds the placeholder 0, which is none. */
  function PortOf(w: World, c: Claimant): Option<nat>
    requires Claims(w, c)
  {
    match c
    case OfRow(r) => NonZero(w.rows[r].hostPort)
    case OfDatabase(b) => NonZero(Some(w.databases[b].hostPort))
  }

  /** Ports are pairwise distinct, and databases stay in their own range. */
  ghost predicate PortsApart(w: World) {
    && w.Valid()
    && (forall a, b | Claims(w, a) && Claims(w, b) && a != b && PortOf(w, a).Some? :: PortOf(w, a) != PortOf(w, b))
    && (forall b | b in w.databases ::
        w.databases[b].hostPort == 0 || w.databases[b].hostPort >= Ports.FIRST_DATABASE_PORT)
  }

  /** Some claimant other than `me` holds the port. */
  ghost predicate Held(w: World, port: nat, me: Claimant) {
    exists c :: Claims(w, c) && c != me && PortOf(w, c) == Some(port)
  }

  /**
   The frame of every step: when all claimants but `me` keep their port or lose
   it, ports stay apart exactly when nobody else holds the port of `me`.
   */
  lemma StepApart(w: World, w': World, me: Claimant)
    requires PortsApart(w) && w'.Valid()
    requires forall c | c != me && Claims(w', c) ::
        Claims(w, c) && (PortOf(w', c) == PortOf(w, c) || PortOf(w', c).None?)
    requires forall b | b in w'.databases ::
        w'.databases[b].hostPort == 0 || w'.databases[b].hostPort >= Ports.FIRST_DATABASE_PORT
    ensures PortsApart(w') <==> (Claims(w', me) && PortOf(w', me).Some? ==> !Held(w', PortOf(w', me).value, me))
  {
    if Claims(w', me) && PortOf(w', me).Some? && Held(w', PortOf(w', me).value, me) {
      var c :| Claims(w', c) && c != me && PortOf(w', c) == PortOf(w', me);
      assert !PortsApart(w');
    }
  }

  lemma StepKeepsApart(w: World, w': World)
    requires PortsApart(w) && w'.Valid()
    requires forall c | Claims(w', c) :: Claims(w, c) && (PortOf(w', c) == PortOf(w, c) || PortOf(w', c).None?)
    requires forall b | b in w'.databases ::
        w'.databases[b].hostPort == 0 || w'.databases[b].hostPort >= Ports.FIRST_DATABASE_PORT
    ensures PortsApart(w')
  {
  }

  predicate CreatesRow(w: World, user: UserId, p: ProjectId, dto: C.CreateDto, f: Faults) {
    && p in w.projects && w.projects[p].owner == user
    && !f.create && !f.inspect && !w.engine.NameTaken(dto.name)
  }

  /** The only dangerous request: a creation that goes through with an explicit port that somebody holds. */
  predicate PortIsSafe(w: World, req: Request, f: Faults) {
    req.CreateContainer? && NonZero(req.container.hostPort).Some?
        && CreatesRow(w, req.user, req.project, req.container, f) ==>
      req.container.hostPort.value !in w.UsedByContainers() + w.UsedByDatabases()
  }

  lemma UsedMeansHeld(w: World, port: nat, me: Claimant)
    requires port != 0 && !Claims(w, me)
    ensures port in w.UsedByContainers() + w.UsedByDatabases() <==> Held(w, port, me)
  {
    if port in w.UsedByContainers() {
      var r :| r in w.rows && w.rows[r].hostPort == Some(port);
      assert Claims(w, OfRow(r)) && PortOf(w, OfRow(r)) == Some(port);
    }
    if port in w.UsedByDatabases() {
      var b :| b in w.databases && w.databases[b].hostPort == port;
      assert Claims(w, OfDatabase(b)) && PortOf(w, OfDatabase(b)) == Some(port);
    }
    if Held(w, port, me) {
      var c :| Claims(w, c) && c != me && PortOf(w, c) == Some(port);
      match c
      case OfRow(r) => assert w.rows[r].hostPort == Some(port);
      case OfDatabase(b) => assert w.databases[b].hostPort == port;
    }
  }

  /** A port below the databases' range that no container row holds is held by nobody. */
  lemma LowPortIsFree(w: World, port: nat, me: Claimant)
    requires PortsApart(w) && port < Ports.FIRST_DATABASE_PORT
    requires forall r | r in w.rows && OfRow(r) != me :: w.rows[r].hostPort != Some(port)
    ensures !Held(w, port, me)
  {
  }

  // ------------------------------------------------------------ the requests

  /** Everybody but `me` holds the port he held. */
  ghost predicate SameElsewhere(w: World, w': World, me: Claimant) {
    forall c | c != me :: (Claims(w', c) <==> Claims(w, c)) && (Claims(w, c) ==> PortOf(w', c) == PortOf(w, c))
  }

  lemma HeldElsewhere(w: World, w': World, port: nat, me: Claimant)
    requires SameElsewhere(w, w', me)
    ensures Held(w', port, me) <==> Held(w, port, me)
  {
    if Held(w, port, me) {
      var c :| Claims(w, c) && c != me && PortOf(w, c) == Some(port);
      assert Claims(w', c) && PortOf(w', c) == Some(port);
    }
  }

  lemma CreatedPorts(w: World, user: UserId, p: ProjectId, dto: C.CreateDto, f: Faults)
    requires w.Valid()
    ensures var w' := C.CreateSpec(w, user, p, dto, f).0;
      var me := OfRow(w.nextRow);
      var port := C.ChosenPort(w, dto);
      && w'.databases == w.databases
      && (if CreatesRow(w, user, p, dto, f) && port.Some?
          then SameElsewhere(w, w', me) && Claims(w', me) && !Claims(w, me) && PortOf(w', me) == port
          else w'.rows == w.rows)
  {
    hide C.DtoTag;
  }

  lemma ScannedPortIsFree(w: World, dto: C.CreateDto, me: Claimant)
    requires PortsApart(w) && NonZero(dto.hostPort).None? && C.ChosenPort(w, dto).Some?
    ensures !Held(w, C.ChosenPort(w, dto).value, me)
  {
    var port := C.ChosenPort(w, dto).value;
    forall r | r in w.rows ensures w.rows[r].hostPort != Some(port) {
      assert w.rows[r].hostPort == Some(port) ==> port in w.UsedByContainers();
    }
    LowPortIsFree(w, port, me);
  }

  lemma CreateApart(w: World, user: UserId, p: ProjectId, dto: C.CreateDto, f: Faults)
    requires PortsApart(w)
    ensures PortsApart(C.CreateSpec(w, user, p, dto, f).0) <==> PortIsSafe(w, CreateContainer(user, p, dto), f)
  {
    hide C.CreateSpec, CreatesRow, Ports.FreeContainerPort, World.Valid;
    var w' := C.CreateSpec(w, user, p, dto, f).0;
    CreateValid(w, user, p, dto, f);
    CreatedPorts(w, user, p, dto, f);
    if CreatesRow(w, user, p, dto, f) && C.ChosenPort(w, dto).Some? {
      var me, port := OfRow(w.nextRow), C.ChosenPort(w, dto).value;
      StepApart(w, w', me);
      HeldElsewhere(w, w', port, me);
      UsedMeansHeld(w, port, me);
      if NonZero(dto.hostPort).None? {
        ScannedPortIsFree(w, dto, me);
      }
    } else {
      StepKeepsApart(w, w');
    }
  }

  lemma AllocateApart(w: World, id: RowId, user: UserId, port: nat, ownFirst: bool, f: Faults)
    requires PortsApart(w)
    ensures PortsApart(C.AllocatePortSpec(w, id, user, port, ownFirst, f).0)
  {
    var w' := C.AllocatePortSpec(w, id, user, port, ownFirst, f).0;
    if Access(w, id, user, false) == Ok && w.rows[id].hostPort == Some(port) {
      assert w'.rows == w.rows;
    } else if w' != w {
      var me := OfRow(id);
      PortsValid(w, id, user, port, ownFirst, f);
      StepApart(w, w', me);
      LowPortIsFree(w, port, me);
      HeldElsewhere(w, w', port, me);
    }
  }

  /** A launched deployment moves the project to a port that nobody holds. */
  lemma ReplacedApart(w: World, p: ProjectId, failing: set<DockerId>, w': World)
    requires PortsApart(w) && w'.Valid() && w'.databases == w.databases
    requires D.Replaced(w, p, failing, w')
    ensures PortsApart(w')
  {
    var me := OfRow(w.nextRow);
    var port := w'.rows[w.nextRow].hostPort.value;
    StepApart(w, w', me);
    forall r | r in w.rows ensures w.rows[r].hostPort != Some(port) {
      assert w.rows[r].hostPort == Some(port) ==> port in w.UsedByContainers();
    }
    LowPortIsFree(w, port, me);
    forall c | Claims(w', c) && c != me ensures PortOf(w', c) != Some(port) {
      assert Claims(w, c) && PortOf(w, c) == PortOf(w', c);
    }
  }

  lemma DeployApart(w: World, user: UserId, p: ProjectId, input: D.DeployInput, f: Faults)
    requires PortsApart(w)
    ensures PortsApart(D.DeploySpec(w, user, p, input, f).0)
  {
    if p in w.projects && w.projects[p].owner == user {
      var w' := D.DeploySpec(w, user, p, input, f).0;
      DeployValid(w, user, p, input, f);
      D.DeployEndsConsistently(w, user, p, input, f);
      if D.LaunchSucceeds(w, p, input, f) {
        D.LaunchedDeploymentReplaces(w, user, p, input, f);
        ReplacedApart(w, p, f.remove, w');
      } else {
        D.FailedLaunchTouchesNothing(w, user, p, input, f);
        SamePortsApart(w, w');
      }
    }
  }

  lemma SamePortsApart(w: World, w': World)
    requires PortsApart(w) && w'.Valid() && w'.rows == w.rows && w'.databases == w.databases
    ensures PortsApart(w')
  {
    StepKeepsApart(w, w');
  }

  /** The database scan looks at both kinds of rows, so its answer is held by nobody. */
  lemma CreateDatabaseApart(w: World, user: UserId, dto: B.CreateDto, f: Faults)
    requires PortsApart(w)
    ensures PortsApart(B.CreateSpec(w, user, dto, f).0)
  {
    var (w', r) := B.CreateSpec(w, user, dto, f);
    CreateDatabaseValid(w, user, dto, f);
    B.CreateIsAllOrNothing(w, user, dto, f);
    if r != Ok {
      SamePortsApart(w, w');
    } else {
      var me := OfDatabase(w.nextDatabase);
      var port := w'.databases[w.nextDatabase].hostPort;
      StepApart(w, w', me);
      UsedMeansHeld(w, port, me);
      forall c | Claims(w', c) && c != me ensures PortOf(w', c) != Some(port) {
        assert Claims(w, c) && PortOf(w, c) == PortOf(w', c);
      }
    }
  }

  /** No row gains a port, and no database changes one. */
  ghost predicate PortsShrink(w: World, w': World) {
    && w'.rows.Keys <= w.rows.Keys && w'.databases.Keys <= w.databases.Keys
    && (forall r | r in w'.rows :: w'.rows[r].hostPort == w.rows[r].hostPort || w'.rows[r].hostPort == None)
    && (forall b | b in w'.databases :: w'.databases[b] == w.databases[b])
  }

  lemma ShrinkApart(w: World, w': World)
    requires PortsApart(w) && w'.Valid() && PortsShrink(w, w')
    ensures PortsApart(w')
  {
    StepKeepsApart(w, w');
  }

  lemma RestartContainerShrinks(w: World, id: RowId, d: DockerId, f: Faults)
    requires id in w.rows
    ensures PortsShrink(w, C.RestartContainerSpec(w, id, d, f).0)
  {
  }

  lemma RecreateShrinks(w: World, id: RowId, d: DockerId, f: Faults)
    requires id in w.rows
    ensures PortsShrink(w, C.RecreateSpec(w, id, d, f).0) && C.RecreateSpec(w, id, d, f).0.rows.Keys == w.rows.Keys
  {
  }

  lemma RestartShrinks(w: World, id: RowId, user: UserId, f: Faults)
    ensures PortsShrink(w, C.RestartSpec(w, id, user, f).0)
  {
    hide C.RecreateSpec, C.RestartContainerSpec, C.Drifted;
    if Access(w, id, user, false) == Ok && w.rows[id].dockerId.Some? && !f.inspect {
      var d := w.rows[id].dockerId.value;
      RestartContainerShrinks(w, id, d, f);
      RecreateShrinks(w, id, d, f);
      var (w1, made) := C.RecreateSpec(w, id, d, f);
      if made.Some? {
        RestartContainerShrinks(w1, id, made.value, f);
      }
    }
  }

  lemma UpdateResourcesShrinks(w: World, id: RowId, user: UserId, dto: C.ResourcesDto, isAdmin: bool, f: Faults)
    ensures PortsShrink(w, C.UpdateResourcesSpec(w, id, user, dto, isAdmin, f).0)
  {
    hide C.RebuildSpec;
    if id in w.rows && w.rows[id].dockerId.Some? {
      RebuildShrinks(w, id, w.rows[id].dockerId.value, dto, f);
    }
  }

  lemma RebuildShrinks(w: World, id: RowId, d: DockerId, dto: C.ResourcesDto, f: Faults)
    requires id in w.rows
    ensures var w' := C.RebuildSpec(w, id, d, dto, f).0;
      PortsShrink(w, w') && id in w'.rows && w'.rows[id].hostPort == w.rows[id].hostPort
  {
    hide Engine.Create, Engine.Start, C.Cleared;
  }

  lemma SwitchesShrink(w: World, id: RowId, user: UserId, f: Faults)
    ensures PortsShrink(w, C.StartSpec(w, id, user, f).0)
    ensures PortsShrink(w, C.StopSpec(w, id, user, f).0)
  {
    hide Engine.Start, Engine.Stop;
  }

  lemma RowRequestsShrink(w: World, id: RowId, user: UserId, f: Faults)
    ensures PortsShrink(w, C.RemoveSpec(w, id, user, f).0)
    ensures PortsShrink(w, C.RemovePortSpec(w, id, user).0)
  {
    hide C.TornDown;
  }

  lemma SuspendResumeShrink(w: World, p: ProjectId, f: Faults)
    ensures PortsShrink(w, P.SuspendSpec(w, p, f).0)
    ensures PortsShrink(w, P.ResumeSpec(w, p, f).0)
  {
  }

  lemma RemovalsShrink(w: World, p: ProjectId, b: DatabaseId, user: UserId, f: Faults)
    ensures PortsShrink(w, P.RemoveSpec(w, p, user, f).0)
    ensures PortsShrink(w, B.RemoveSpec(w, b, user, f).0)
  {
  }

  lemma ApartIsValid(w: World)
    requires PortsApart(w)
    ensures w.Valid()
  {
  }

  lemma OtherRequestsApart(w: World, req: Request, f: Faults)
    requires PortsApart(w)
    requires !req.CreateContainer? && !req.AllocatePort? && !req.Deploy? && !req.CreateDatabase?
    ensures PortsApart(Apply(w, req, f).0)
  {
    hide PortsApart, PortsShrink, World.Valid;
    hide C.CreateSpec, C.StartSpec, C.StopSpec, C.RestartSpec, C.RemoveSpec, C.UpdateResourcesSpec, C.AllocatePortSpec;
    hide C.RemovePortSpec, D.DeploySpec, P.SuspendSpec, P.ResumeSpec, P.RemoveSpec, B.CreateSpec, B.RemoveSpec;
    ApartIsValid(w);
    ApplyValid(w, req, f);
    match req {
      case RestartContainer(id, user) => RestartShrinks(w, id, user, f);
      case UpdateResources(id, user, dto, isAdmin) => UpdateResourcesShrinks(w, id, user, dto, isAdmin, f);
      case StartContainer(id, user) => SwitchesShrink(w, id, user, f);
      case StopContainer(id, user) => SwitchesShrink(w, id, user, f);
      case RemoveContainer(id, user) => RowRequestsShrink(w, id, user, f);
      case RemovePort(id, user) => RowRequestsShrink(w, id, user, f);
      case Suspend(project) => SuspendResumeShrink(w, project, f);
      case Resume(project) => SuspendResumeShrink(w, project, f);
      case RemoveProject(project, user) => RemovalsShrink(w, project, 0, user, f);
      case RemoveDatabase(b, user) => RemovalsShrink(w, 0, b, user, f);
    }
    ShrinkApart(w, Apply(w, req, f).0);
  }

  // ------------------------------------------------------------ main results

  /** One step, under any faults: ports stay apart exactly when the request is not the one dangerous creation. */
  lemma PortStepKeepsExactlyWhenSafe(w: World, req: Request, f: Faults)
    requires PortsApart(w)
    ensures PortsApart(Apply(w, req, f).0) <==> PortIsSafe(w, req, f)
  {
    hide PortsApart, CreatesRow;
    hide C.CreateSpec, C.StartSpec, C.StopSpec, C.RestartSpec, C.RemoveSpec, C.UpdateResourcesSpec, C.AllocatePortSpec;
    hide C.RemovePortSpec, D.DeploySpec, P.SuspendSpec, P.ResumeSpec, P.RemoveSpec, B.CreateSpec, B.RemoveSpec;
    match req
    case CreateContainer(user, project, dto) => CreateApart(w, user, project, dto, f);
    case AllocatePort(id, user, port, ownFirst) => AllocateApart(w, id, user, port, ownFirst, f);
    case Deploy(user, project, input) => DeployApart(w, user, project, input, f);
    case CreateDatabase(user, dto) => CreateDatabaseApart(w, user, dto, f);
    case _ => OtherRequestsApart(w, req, f);
  }

  predicate NoExplicitPort(steps: seq<(Request, Faults)>) {
    forall s | s in steps :: s.0.CreateContainer? ==> NonZero(s.0.container.hostPort).None?
  }

  /** Over whole runs in which no creation names a host port, no two ports ever collide. */
  lemma {:induction false} PortsNeverCollide(w: World, steps: seq<(Request, Faults)>)
    requires PortsApart(w) && NoExplicitPort(steps)
    ensures PortsApart(Run(w, steps))
    decreases |steps|
  {
    if steps != [] {
      assert steps[0] in steps && forall s | s in steps[1..] :: s in steps;
      PortStepKeepsExactlyWhenSafe(w, steps[0].0, steps[0].1);
      PortsNeverCollide(Apply(w, steps[0].0, steps[0].1).0, steps[1..]);
    }
  }
}
