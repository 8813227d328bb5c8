/** All requests as steps of one state machine, with what every single step guarantees by itself. */
module Requests {
  import opened Options
  import opened Docker
  import opened World
  import Ports
  import C = Containers
  import D = Deployments
  import P = Projects
  import B = Databases

  datatype Request =
    | CreateContainer(user: UserId, project: ProjectId, container: C.CreateDto)
    | StartContainer(id: RowId, user: UserId)
    | StopContainer(id: RowId, user: UserId)
    | RestartContainer(id: RowId, user: UserId)
    | RemoveContainer(id: RowId, user: UserId)
    | UpdateResources(id: RowId, user: UserId, resources: C.ResourcesDto, isAdmin: bool)
    | AllocatePort(id: RowId, user: UserId, port: nat, ownFirst: bool)
    | RemovePort(id: RowId, user: UserId)
    | Deploy(user: UserId, project: ProjectId, input: D.DeployInput)
    | Suspend(project: ProjectId)
    | Resume(project: ProjectId)
    | RemoveProject(project: ProjectId, user: UserId)
    | CreateDatabase(user: UserId, database: B.CreateDto)
    | RemoveDatabase(b: DatabaseId, user: UserId)

  function Apply(w: World, req: Request, f: Faults): (World, Outcome) {
    match req
    case CreateContainer(user, project, dto) => C.CreateSpec(w, user, project, dto, f)
    case StartContainer(id, user) => C.StartSpec(w, id, user, f)
    case StopContainer(id, user) => C.StopSpec(w, id, user, f)
    case RestartContainer(id, user) => C.RestartSpec(w, id, user, f)
    case RemoveContainer(id, user) => C.RemoveSpec(w, id, user, f)
    case UpdateResources(id, user, dto, isAdmin) => C.UpdateResourcesSpec(w, id, user, dto, isAdmin, f)
    case AllocatePort(id, user, port, ownFirst) => C.AllocatePortSpec(w, id, user, port, ownFirst, f)
    case RemovePort(id, user) => C.RemovePortSpec(w, id, user)
    case Deploy(user, project, input) => D.DeploySpec(w, user, project, input, f)
    case Suspend(project) => P.SuspendSpec(w, project, f)
    case Resume(project) => P.ResumeSpec(w, project, f)
    case RemoveProject(project, user) => P.RemoveSpec(w, project, user, f)
    case CreateDatabase(user, dto) => B.CreateSpec(w, user, dto, f)
    case RemoveDatabase(b, user) => B.RemoveSpec(w, b, user, f)
  }

  /** Requests one after the other, each with the faults it meets. */
  function Run(w: World, steps: seq<(Request, Faults)>): World
    decreases |steps|
  {
    if steps == [] then w else Run(Apply(w, steps[0].0, steps[0].1).0, steps[1..])
  }

  // ------------------------------------------------------- effects of calls

  lemma TornDownEffect(e: Engine, d: DockerId, f: Faults)
    requires e.Valid() && d in e.containers
    ensures var e' := C.TornDown(e, d, f);
      && e'.Valid() && e'.next == e.next
      && e'.containers.Keys == (if d in f.remove then e.containers.Keys else e.containers.Keys - {d})
      && (forall c | c in e'.containers && c != d :: e'.containers[c] == e.containers[c])
      && (d in e'.containers ==>
            && e'.containers[d].spec == e.containers[d].spec
            && (e'.containers[d].running <==> e.containers[d].running && d in f.stop))
  {
  }

  lemma CreateEffect(e: Engine, spec: Spec, fault: bool)
    requires e.Valid()
    ensures var (e', made) := e.Create(spec, fault);
      && e'.Valid()
      && (made.None? <==> fault || e.NameTaken(spec.name))
      && (made.None? ==> e' == e)
      && (made.Some? ==>
            && made.value == e.next && e'.next == e.next + 1
            && e'.containers == e.containers[e.next := Container(spec, false)])
  {
  }

  lemma RestartContainerEffect(w: World, id: RowId, d: DockerId, f: Faults)
    requires w.Valid() && id in w.rows && d in w.engine.containers && w.rows[id].dockerId == Some(d)
    ensures var w' := C.RestartContainerSpec(w, id, d, f).0;
      && w'.Valid() && w' == w.(rows := w'.rows, engine := w'.engine)
      && w'.engine.next == w.engine.next
      && w'.engine.containers.Keys == w.engine.containers.Keys
      && (forall c | c in w.engine.containers && c != d :: w'.engine.containers[c] == w.engine.containers[c])
      && (if f.restart then w' == w
          else w'.rows == w.rows[id := w.rows[id].(status := RUNNING)] && w'.engine.containers[d].running)
  {
  }

  lemma ClearedEffect(e: Engine, row: Row, d: DockerId, f: Faults)
    requires e.Valid() && d in e.containers
    ensures var e' := C.Cleared(e, row, d, f);
      && e'.Valid() && e'.next == e.next
      && (forall c | c != d :: c in e'.containers <==>
            c in e.containers && (f.removeNamed || e.containers[c].spec.name != row.name))
      && (forall c | c in e'.containers && c != d :: e'.containers[c] == e.containers[c])
      && (d in e'.containers <==> d in f.remove && (f.removeNamed || e.containers[d].spec.name != row.name))
      && (d in e'.containers ==> (e'.containers[d].running <==> e.containers[d].running && d in f.stop))
  {
    TornDownEffect(e, d, f);
    var torn := C.TornDown(e, d, f);
    if !f.removeNamed && !torn.NameTaken(row.name) {
      forall c | c in torn.containers ensures torn.containers[c].spec.name != row.name {
      }
    }
  }

  /** The engine after creating a container and, when asked, starting it. */
  lemma MadeEffect(e: Engine, spec: Spec, start: bool, f: Faults)
    requires e.Valid()
    ensures var (e1, made) := e.Create(spec, f.create);
      made.Some? ==>
        var (e2, ok) := if start then e1.Start(made.value, made.value in f.start) else (e1, true);
        && made.value == e.next
        && (ok <==> !(start && e.next in f.start))
        && e2 == Engine(e.containers[e.next := Container(spec, start && ok)], e.next + 1) && e2.Valid()
  {
    CreateEffect(e, spec, f.create);
    assert e.containers[e.next := Container(spec, false)][e.next := Container(spec, true)]
        == e.containers[e.next := Container(spec, true)];
  }

  lemma RemadeCases(w: World, id: RowId, dto: C.ResourcesDto, f: Faults)
    requires w.engine.Valid() && id in w.rows
    ensures var (w', ok) := C.RemadeSpec(w, id, dto, f);
      var row := w.rows[id];
      var n := w.engine.next;
      && C.RebuiltSpec(row, dto).name == row.name
      && (f.create || w.engine.NameTaken(row.name) ==> !ok && w' == w)
      && (!f.create && !w.engine.NameTaken(row.name) ==>
            var started := row.status == RUNNING && n !in f.start;
            var e := Engine(w.engine.containers[n := Container(C.RebuiltSpec(row, dto), started)], n + 1);
            && (ok <==> !(row.status == RUNNING && n in f.start))
            && w' == if ok then w.(engine := e).SetRow(id, row.(dockerId := Some(n))) else w.(engine := e))
  {
    var row := w.rows[id];
    CreateEffect(w.engine, C.RebuiltSpec(row, dto), f.create);
    MadeEffect(w.engine, C.RebuiltSpec(row, dto), row.status == RUNNING, f);
  }

  lemma RemadeEffect(w: World, id: RowId, dto: C.ResourcesDto, f: Faults)
    requires w.engine.Valid() && id in w.rows
    ensures var (w', ok) := C.RemadeSpec(w, id, dto, f);
      var row := w.rows[id];
      var n := w.engine.next;
      var spec := C.RebuiltSpec(row, dto);
      && w'.engine.Valid()
      && (ok <==> !f.create && !w.engine.NameTaken(row.name) && !(row.status == RUNNING && n in f.start))
      && (ok ==> w' == w.(
            rows := w.rows[id := row.(dockerId := Some(n))],
            engine := Engine(w.engine.containers[n := Container(spec, row.status == RUNNING)], n + 1)))
      && (!ok ==> w' == w || w' == w.(engine := Engine(w.engine.containers[n := Container(spec, false)], n + 1)))
  {
    hide C.RemadeSpec, C.RebuiltSpec;
    RemadeCases(w, id, dto, f);
    if !w.engine.NameTaken(w.rows[id].name) {
      MadeValid(w.engine, C.RebuiltSpec(w.rows[id], dto), true);
      MadeValid(w.engine, C.RebuiltSpec(w.rows[id], dto), false);
    }
  }

  lemma MadeValid(e: Engine, spec: Spec, running: bool)
    requires e.Valid() && !e.NameTaken(spec.name)
    ensures Engine(e.containers[e.next := Container(spec, running)], e.next + 1).Valid()
  {
  }

  lemma CommitValid(w: World, p: ProjectId, n: DeploymentId, input: D.DeployInput, port: nat, spec: Spec, f: Faults)
    requires w.Valid() && p in w.projects && n in w.deployments && !w.engine.NameTaken(spec.name)
    ensures var launched := Engine(w.engine.containers[w.engine.next := Container(spec, true)], w.engine.next + 1);
      var done := D.CommitSpec(w.(engine := launched), p, n, input, w.engine.next, port, f);
      done.Valid() && p in done.projects && n in done.deployments
  {
  }

  lemma TornDownLeavesOthers(e: Engine, d: DockerId, f: Faults)
    ensures C.TornDown(e, d, f).next == e.next
    ensures forall c | c in e.containers && c != d ::
        c in C.TornDown(e, d, f).containers && C.TornDown(e, d, f).containers[c] == e.containers[c]
  {
  }

  // --------------------------------------------------------------- validity

  lemma EngineChangeValid(w: World, e: Engine)
    requires w.Valid() && e.Valid() && w.engine.next <= e.next
    ensures w.(engine := e).Valid()
  {
  }

  lemma RowChangeValid(w: World, id: RowId, row: Row)
    requires w.Valid() && id in w.rows && row.project == w.rows[id].project
    requires row.dockerId.Some? ==> row.dockerId.value < w.engine.next
    ensures w.SetRow(id, row).Valid()
  {
  }

  lemma TornDownValid(e: Engine, d: DockerId, f: Faults)
    requires e.Valid()
    ensures C.TornDown(e, d, f).Valid() && C.TornDown(e, d, f).next == e.next
  {
  }

  lemma RestartValid(w: World, id: RowId, user: UserId, f: Faults)
    requires w.Valid()
    ensures C.RestartSpec(w, id, user, f).0.Valid()
  {
    if Access(w, id, user, false) == Ok && w.rows[id].dockerId.Some? && !f.inspect {
      var d := w.rows[id].dockerId.value;
      if C.Drifted(w, id) {
        RecreateValid(w, id, d, f);
        var (w1, made) := C.RecreateSpec(w, id, d, f);
        if made.Some? {
          RestartContainerEffect(w1, id, made.value, f);
        }
      } else {
        RestartContainerEffect(w, id, d, f);
      }
    }
  }

  lemma RecreateValid(w: World, id: RowId, d: DockerId, f: Faults)
    requires w.Valid() && id in w.rows
    ensures var (w1, made) := C.RecreateSpec(w, id, d, f);
      && w1.Valid() && id in w1.rows
      && (made.Some? ==> made.value in w1.engine.containers && w1.rows[id].dockerId == made)
  {
    var torn := if d in w.engine.containers then C.TornDown(w.engine, d, f) else w.engine;
    TornDownValid(w.engine, d, f);
    CreateEffect(torn, C.RowSpec(w.rows[id]), f.create);
    var (e, made) := torn.Create(C.RowSpec(w.rows[id]), f.create);
    EngineChangeValid(w, e);
    if made.Some? {
      RowChangeValid(w.(engine := e), id, w.rows[id].(dockerId := made));
    }
  }

  lemma EditValid(w: World, id: RowId, dto: C.ResourcesDto)
    requires w.Valid() && id in w.rows
    ensures C.EditRow(w, id, dto).Valid()
  {
    RowChangeValid(w, id, C.Edited(w.rows[id], dto));
  }

  lemma UpdateResourcesValid(w: World, id: RowId, user: UserId, dto: C.ResourcesDto, isAdmin: bool, f: Faults)
    requires w.Valid()
    ensures C.UpdateResourcesSpec(w, id, user, dto, isAdmin, f).0.Valid()
  {
    hide World.Valid, C.RebuildSpec, C.WantedVolume, C.EditRow;
    if Access(w, id, user, isAdmin) == Ok {
      EditValid(w, id, dto);
      if w.rows[id].dockerId.Some? {
        var d := w.rows[id].dockerId.value;
        RebuildValid(w, id, d, dto, f);
        EditValid(C.RebuildSpec(w, id, d, dto, f).0, id, dto);
      }
    }
  }

  lemma RebuildValid(w: World, id: RowId, d: DockerId, dto: C.ResourcesDto, f: Faults)
    requires w.Valid() && id in w.rows
    ensures C.RebuildSpec(w, id, d, dto, f).0.Valid() && id in C.RebuildSpec(w, id, d, dto, f).0.rows
  {
    var row := w.rows[id];
    TornDownValid(w.engine, d, f);
    var cleared := C.Cleared(w.engine, row, d, f);
    assert cleared.Valid() && cleared.next == w.engine.next;
    EngineChangeValid(w, cleared);
    var w0 := w.(engine := cleared);
    RemadeEffect(w0, id, dto, f);
    var (w1, ok) := C.RebuildSpec(w, id, d, dto, f);
    EngineChangeValid(w0, w1.engine);
    if ok {
      RowChangeValid(w0.(engine := w1.engine), id, row.(dockerId := Some(w.engine.next)));
    }
  }

  lemma LaunchValid(w: World, p: ProjectId, input: D.DeployInput, f: Faults)
    requires w.Valid() && p in w.projects
    ensures var (w', made) := D.LaunchSpec(w, p, input, f);
      && w'.Valid() && w' == w.(engine := w'.engine)
      && (made.Some? ==> made.value.0 == w.engine.next && var spec := D.NewSpec(p, w.projects[p], input, made.value.1);
            && !w.engine.NameTaken(spec.name)
            && w'.engine == Engine(w.engine.containers[w.engine.next := Container(spec, true)], w.engine.next + 1))
  {
    var w' := D.LaunchSpec(w, p, input, f).0;
    D.LaunchEffect(w, p, input, f);
    assert w'.engine.Valid();
    EngineChangeValid(w, w'.engine);
  }

  lemma DeployValid(w: World, user: UserId, p: ProjectId, input: D.DeployInput, f: Faults)
    requires w.Valid()
    ensures D.DeploySpec(w, user, p, input, f).0.Valid()
  {
    hide D.LaunchSpec, D.CommitSpec, D.NewSpec, D.Begun, D.Compensated, World.Valid;
    if p in w.projects && w.projects[p].owner == user {
      var begun := D.Begun(w, p, input.kind);
      BegunValid(w, p, input.kind);
      LaunchValid(begun, p, input, f);
      var (w1, made) := D.LaunchSpec(begun, p, input, f);
      EndingValid(w1, p, w.nextDeployment);
      if made.Some? {
        var (d, port) := made.value;
        CommitValid(begun, p, w.nextDeployment, input, port, D.NewSpec(p, begun.projects[p], input, port), f);
        EndingValid(D.CommitSpec(w1, p, w.nextDeployment, input, d, port, f), p, w.nextDeployment);
      }
    }
  }

  lemma BegunValid(w: World, p: ProjectId, kind: D.Kind)
    requires w.Valid() && p in w.projects
    ensures var begun := D.Begun(w, p, kind);
      && begun.Valid() && p in begun.projects && w.nextDeployment in begun.deployments
  {
  }

  lemma EndingValid(w: World, p: ProjectId, n: DeploymentId)
    requires w.Valid() && p in w.projects && n in w.deployments
    ensures D.Compensated(w, p, n).Valid()
  {
  }

  lemma DatabaseChangeValid(w: World, w': World)
    requires w.Valid() && w'.engine.Valid() && w.engine.next <= w'.engine.next
    requires w' == w.(engine := w'.engine, databases := w'.databases, nextDatabase := w.nextDatabase + 1)
    requires forall b | b in w'.databases ::
        || (b in w.databases && w'.databases[b] == w.databases[b])
        || (b == w.nextDatabase && w'.databases[b].dockerId == Some(w.engine.next) && w.engine.next < w'.engine.next)
    ensures w'.Valid()
  {
  }

  lemma OneMoreValid(e: Engine, e': Engine)
    requires e.Valid()
    requires e' == e ||
             exists c: Container ::
               !e.NameTaken(c.spec.name) && e' == Engine(e.containers[e.next := c], e.next + 1)
    ensures e'.Valid() && e.next <= e'.next
  {
  }

  lemma EngineIsValid(w: World)
    requires w.Valid()
    ensures w.engine.Valid()
  {
  }

  lemma CreateDatabaseValid(w: World, user: UserId, dto: B.CreateDto, f: Faults)
    requires w.Valid()
    ensures B.CreateSpec(w, user, dto, f).0.Valid()
  {
    hide World.Valid, B.ProvisionSpec, B.NewSpec, B.Serves, B.UsedPorts, Ports.IsLeastFree, Ports.FreeDatabasePort;
    var (w', r) := B.CreateSpec(w, user, dto, f);
    var placed := B.WithPlaceholder(w, user, dto.kind);
    B.CreateIsAllOrNothing(w, user, dto, f);
    B.ProvisionOneContainer(placed, w.nextDatabase, dto, f);
    EngineIsValid(w);
    OneMoreValid(w.engine, w'.engine);
    DatabaseChangeValid(w, w');
  }

  lemma CreateValid(w: World, user: UserId, p: ProjectId, dto: C.CreateDto, f: Faults)
    requires w.Valid()
    ensures C.CreateSpec(w, user, p, dto, f).0.Valid()
  {
  }

  lemma CallsValid(e: Engine, d: DockerId, fault: bool)
    requires e.Valid()
    ensures e.Start(d, fault).0.Valid() && e.Start(d, fault).0.next == e.next
    ensures e.Stop(d, fault).0.Valid() && e.Stop(d, fault).0.next == e.next
  {
  }

  lemma StartValid(w: World, id: RowId, user: UserId, f: Faults)
    requires w.Valid()
    ensures C.StartSpec(w, id, user, f).0.Valid()
  {
    if Access(w, id, user, false) == Ok && w.rows[id].dockerId.Some? {
      var d := w.rows[id].dockerId.value;
      CallsValid(w.engine, d, d in f.start);
      var e := w.engine.Start(d, d in f.start).0;
      EngineChangeValid(w, e);
      RowChangeValid(w.(engine := e), id, w.rows[id].(status := RUNNING));
    }
  }

  lemma StopValid(w: World, id: RowId, user: UserId, f: Faults)
    requires w.Valid()
    ensures C.StopSpec(w, id, user, f).0.Valid()
  {
    if Access(w, id, user, false) == Ok && w.rows[id].dockerId.Some? {
      var d := w.rows[id].dockerId.value;
      CallsValid(w.engine, d, d in f.stop);
      var e := w.engine.Stop(d, d in f.stop).0;
      EngineChangeValid(w, e);
      RowChangeValid(w.(engine := e), id, w.rows[id].(status := STOPPED));
    }
  }

  lemma RemoveValid(w: World, id: RowId, user: UserId, f: Faults)
    requires w.Valid()
    ensures C.RemoveSpec(w, id, user, f).0.Valid()
  {
    if id in w.rows && w.rows[id].dockerId.Some? {
      TornDownValid(w.engine, w.rows[id].dockerId.value, f);
    }
  }

  lemma PortsValid(w: World, id: RowId, user: UserId, port: nat, ownFirst: bool, f: Faults)
    requires w.Valid()
    ensures C.AllocatePortSpec(w, id, user, port, ownFirst, f).0.Valid()
    ensures C.RemovePortSpec(w, id, user).0.Valid()
  {
    if id in w.rows {
      RowChangeValid(w, id, w.rows[id].(hostPort := Some(port)));
      RowChangeValid(w, id, w.rows[id].(hostPort := None));
    }
  }

  lemma SuspendValid(w: World, p: ProjectId, f: Faults)
    requires w.Valid()
    ensures P.SuspendSpec(w, p, f).0.Valid()
  {
  }

  lemma ResumeValid(w: World, p: ProjectId, f: Faults)
    requires w.Valid()
    ensures P.ResumeSpec(w, p, f).0.Valid()
  {
  }

  lemma RemoveProjectValid(w: World, p: ProjectId, user: UserId, f: Faults)
    requires w.Valid()
    ensures P.RemoveSpec(w, p, user, f).0.Valid()
  {
  }

  lemma RemoveDatabaseValid(w: World, b: DatabaseId, user: UserId, f: Faults)
    requires w.Valid()
    ensures B.RemoveSpec(w, b, user, f).0.Valid()
  {
  }

  /** What the schema and the engine guarantee holds after every request. */
  lemma ApplyValid(w: World, req: Request, f: Faults)
    requires w.Valid()
    ensures Apply(w, req, f).0.Valid()
  {
    hide World.Valid;
    hide C.CreateSpec, C.StartSpec, C.StopSpec, C.RestartSpec, C.RemoveSpec, C.UpdateResourcesSpec, C.AllocatePortSpec;
    hide C.RemovePortSpec, D.DeploySpec, P.SuspendSpec, P.ResumeSpec, P.RemoveSpec, B.CreateSpec, B.RemoveSpec;
    match req
    case CreateContainer(user, project, dto) => CreateValid(w, user, project, dto, f);
    case StartContainer(id, user) => StartValid(w, id, user, f);
    case StopContainer(id, user) => StopValid(w, id, user, f);
    case RestartContainer(id, user) => RestartValid(w, id, user, f);
    case RemoveContainer(id, user) => RemoveValid(w, id, user, f);
    case UpdateResources(id, user, dto, isAdmin) => UpdateResourcesValid(w, id, user, dto, isAdmin, f);
    case AllocatePort(id, user, port, ownFirst) => PortsValid(w, id, user, port, ownFirst, f);
    case RemovePort(id, user) => PortsValid(w, id, user, 0, false, f);
    case Deploy(user, project, input) => DeployValid(w, user, project, input, f);
    case Suspend(project) => SuspendValid(w, project, f);
    case Resume(project) => ResumeValid(w, project, f);
    case RemoveProject(project, user) => RemoveProjectValid(w, project, user, f);
    case CreateDatabase(user, dto) => CreateDatabaseValid(w, user, dto, f);
    case RemoveDatabase(b, user) => RemoveDatabaseValid(w, b, user, f);
  }
}
