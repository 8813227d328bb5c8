/**
 Requests on single containers.  Each request has a specification function on
 `World`; the methods of `ContainersService` carry the request out call by call
 on the store and the engine and are proved to compute that function.
 */
module Containers {
  import opened Options
  import opened Docker
  import opened World
  import Ports

  datatype CreateDto = CreateDto(
    name: string, imageName: string, imageTag: Option<string>, internalPort: nat, hostPort: Option<nat>)

  /** `volume` is None when the field is missing and Some(None) when it is null. */
  datatype ResourcesDto = ResourcesDto(volume: Option<Option<string>>, internalPort: Option<nat>)

  // ------------------------------------------------------------------ create

  function ChosenPort(w: World, dto: CreateDto): Option<nat> {
    match NonZero(dto.hostPort)
    case Some(p) => Some(p)
    case None => Ports.FreeContainerPort(w.UsedByContainers())
  }

  function DtoTag(dto: CreateDto): string {
    match Filled(dto.imageTag)
    case Some(t) => t
    case None => "latest"
  }

  function NewRow(project: ProjectId, dto: CreateDto, port: nat, d: DockerId): Row {
    Row(project, Some(d), dto.name, dto.imageName, DtoTag(dto), dto.internalPort, Some(port), None, STOPPED)
  }

  function CreateSpec(w: World, user: UserId, project: ProjectId, dto: CreateDto, f: Faults): (World, Outcome) {
    if project !in w.projects then (w, NotFound)
    else if w.projects[project].owner != user then (w, Forbidden)
    else
      match ChosenPort(w, dto)
      case None => (w, ServerError)
      case Some(port) =>
        var spec := Spec(dto.name, Image(dto.imageName, DtoTag(dto)), map[dto.internalPort := port], None);
        match w.engine.Create(spec, f.create) {
          case (e, None) => (w.(engine := e), ServerError)
          case (e, Some(d)) =>
            if f.inspect then (w.(engine := e), ServerError)
            else
              var row := NewRow(project, dto, port, d);
              (w.(engine := e, rows := w.rows[w.nextRow := row], nextRow := w.nextRow + 1), Ok)
        }
  }

  // -------------------------------------------------------------- start, stop

  function StartSpec(w: World, id: RowId, user: UserId, f: Faults): (World, Outcome) {
    var access := Access(w, id, user, false);
    if access != Ok then (w, access)
    else if w.rows[id].dockerId.None? then (w, NotFound)
    else
      var d := w.rows[id].dockerId.value;
      var (e, ok) := w.engine.Start(d, d in f.start);
      if !ok then (w, ServerError)
      else (w.(engine := e).SetRow(id, w.rows[id].(status := RUNNING)), Ok)
  }

  function StopSpec(w: World, id: RowId, user: UserId, f: Faults): (World, Outcome) {
    var access := Access(w, id, user, false);
    if access != Ok then (w, access)
    else if w.rows[id].dockerId.None? then (w, NotFound)
    else
      var d := w.rows[id].dockerId.value;
      var (e, ok) := w.engine.Stop(d, d in f.stop);
      if !ok then (w, ServerError)
      else (w.(engine := e).SetRow(id, w.rows[id].(status := STOPPED)), Ok)
  }

  // ----------------------------------------------------------------- restart

  /** The port binding of the container is not the one the row asks for, or the container is gone. */
  predicate Drifted(w: World, id: RowId)
    requires id in w.rows && w.rows[id].dockerId.Some?
  {
    var row := w.rows[id];
    var d := row.dockerId.value;
    d !in w.engine.containers || w.engine.BoundPort(d, row.internalPort) != ExpectedPort(row)
  }

  /** The container a restart builds from the row. */
  function RowSpec(row: Row): Spec {
    Spec(row.name, Image(row.imageName, Tag(row.imageTag)), Bindings(row.internalPort, row.hostPort), Filled(row.mount))
  }

  /** `stop` and forced `remove`, whose failures the callers ignore. */
  function TornDown(e: Engine, d: DockerId, f: Faults): Engine {
    e.Stop(d, d in f.stop).0.Remove(d, d in f.remove).0
  }

  /** The last part of a restart, once the row names the container d. */
  function RestartContainerSpec(w: World, id: RowId, d: DockerId, f: Faults): (World, Outcome)
    requires id in w.rows
  {
    var (e, ok) := w.engine.Restart(d, f.restart);
    if !ok then (w, ServerError)
    else
      var w' := w.(engine := e).SetRow(id, w.rows[id].(status := RUNNING));
      (w', if Routed(w', w'.rows[id]) && f.nginxSync then ServerError else Ok)
  }

  /**
   Replace the container of row `id` by one built from the row.  The answer is
   the id of the container to restart, or None when a step failed.
   */
  function RecreateSpec(w: World, id: RowId, d: DockerId, f: Faults): (World, Option<DockerId>)
    requires id in w.rows
  {
    var row := w.rows[id];
    var torn := if d in w.engine.containers then TornDown(w.engine, d, f) else w.engine;
    match torn.Create(RowSpec(row), f.create)
    case (e, None) => (w.(engine := e), None)
    case (e, Some(made)) =>
      (w.(engine := e).SetRow(id, row.(dockerId := Some(made))), if Routed(w, row) && f.nginx then None else Some(made))
  }

  function RestartSpec(w: World, id: RowId, user: UserId, f: Faults): (World, Outcome) {
    var access := Access(w, id, user, false);
    if access != Ok then (w, access)
    else if w.rows[id].dockerId.None? then (w, NotFound)
    else if f.inspect then (w, ServerError)
    else
      var d := w.rows[id].dockerId.value;
      if !Drifted(w, id) then RestartContainerSpec(w, id, d, f)
      else
        match RecreateSpec(w, id, d, f)
        case (w', None) => (w', ServerError)
        case (w', Some(made)) => RestartContainerSpec(w', id, made, f)
  }

  // ------------------------------------------------------------------ remove

  function Deleted(w: World, id: RowId): World {
    w.(rows := w.rows - {id})
  }

  function RemoveSpec(w: World, id: RowId, user: UserId, f: Faults): (World, Outcome) {
    var access := Access(w, id, user, false);
    if access != Ok then (w, access)
    else
      match w.rows[id].dockerId
      case None => (Deleted(w, id), Ok)
      case Some(d) => (Deleted(w.(engine := TornDown(w.engine, d, f)), id), Ok)
  }

  // --------------------------------------------------------- updateResources

  function Edited(row: Row, dto: ResourcesDto): Row {
    row.(mount := if dto.volume.Some? then dto.volume.value else row.mount,
         internalPort := if dto.internalPort.Some? then dto.internalPort.value else row.internalPort)
  }

  function WantedVolume(dto: ResourcesDto): Option<string> {
    if dto.volume.Some? then Filled(dto.volume.value) else None
  }

  /** The volume is mounted only when the request itself names it. */
  function RebuiltSpec(row: Row, dto: ResourcesDto): Spec {
    var port := if NonZero(dto.internalPort).Some? then dto.internalPort.value else row.internalPort;
    Spec(row.name, Image(row.imageName, Tag(row.imageTag)), Bindings(port, row.hostPort), WantedVolume(dto))
  }

  /** The engine after the three removal attempts: stop, remove by id, remove by name. */
  function Cleared(e: Engine, row: Row, d: DockerId, f: Faults): Engine {
    TornDown(e, d, f).RemoveNamed(row.name, f.removeNamed).0
  }

  /** Make the new container, start it for a row that says RUNNING, and record it. */
  function RemadeSpec(w: World, id: RowId, dto: ResourcesDto, f: Faults): (World, bool)
    requires id in w.rows
  {
    var row := w.rows[id];
    match w.engine.Create(RebuiltSpec(row, dto), f.create)
    case (e, None) => (w.(engine := e), false)
    case (e, Some(made)) =>
      var (e', ok) := if row.status == RUNNING then e.Start(made, made in f.start) else (e, true);
      (if ok then w.(engine := e').SetRow(id, row.(dockerId := Some(made))) else w.(engine := e'), ok)
  }

  /** Replace the container of row `id` because its mount or internal port changes. */
  function RebuildSpec(w: World, id: RowId, d: DockerId, dto: ResourcesDto, f: Faults): (World, bool)
    requires id in w.rows
  {
    RemadeSpec(w.(engine := Cleared(w.engine, w.rows[id], d, f)), id, dto, f)
  }

  function EditRow(w: World, id: RowId, dto: ResourcesDto): World
    requires id in w.rows
  {
    w.SetRow(id, Edited(w.rows[id], dto))
  }

  function UpdateResourcesSpec(
      w: World, id: RowId, user: UserId, dto: ResourcesDto, isAdmin: bool, f: Faults): (World, Outcome)
  {
    var access := Access(w, id, user, isAdmin);
    if access != Ok then (w, access)
    else
      var row := w.rows[id];
      match row.dockerId
      case None => (EditRow(w, id, dto), Ok)
      case Some(d) =>
        var volumeChanged := dto.volume.Some? && dto.volume.value != row.mount;
        var internalPortChanged := dto.internalPort.Some? && dto.internalPort.value != row.internalPort;
        if volumeChanged || internalPortChanged then
          if WantedVolume(dto).Some? && f.volume then (w, ServerError)
          else
            var (w', ok) := RebuildSpec(w, id, d, dto, f);
            if ok then (EditRow(w', id, dto), Ok) else (w', ServerError)
        else if f.update || d !in w.engine.containers then (w, ServerError)
        else (EditRow(w, id, dto), Ok)
  }

  // ------------------------------------------------------------------- ports

  /**
   Whether `findFirst` answers with a row other than `id`.  The query has no
   order: when `id` itself holds the port as well, `ownFirst` says which it is.
   */
  predicate TakenByOther(w: World, id: RowId, port: nat, ownFirst: bool)
    requires id in w.rows
  {
    && (exists r | r in w.rows :: r != id && w.rows[r].hostPort == Some(port))
    && !(ownFirst && w.rows[id].hostPort == Some(port))
  }

  function AllocatePortSpec(w: World, id: RowId, user: UserId, port: nat, ownFirst: bool, f: Faults): (World, Outcome) {
    var access := Access(w, id, user, false);
    if access != Ok then (w, access)
    else if port < Ports.FIRST_ALLOCATABLE_PORT || port > Ports.LAST_ALLOCATABLE_PORT then (w, Forbidden)
    else if TakenByOther(w, id, port, ownFirst) then (w, Forbidden)
    else
      var row := w.rows[id];
      var w' := w.SetRow(id, row.(hostPort := Some(port)));
      var rewrites := row.hostPort != Some(port) && Filled(w.projects[row.project].domain).Some?;
      (w', if rewrites && f.nginx then ServerError else Ok)
  }

  function RemovePortSpec(w: World, id: RowId, user: UserId): (World, Outcome) {
    var access := Access(w, id, user, false);
    if access != Ok then (w, access)
    else (w.SetRow(id, w.rows[id].(hostPort := None)), Ok)
  }

  // ----------------------------------------------------------------- service

  class ContainersService {
    const db: Store
    const docker: Daemon

    constructor (db: Store, docker: Daemon)
      ensures this.db == db && this.docker == docker
    {
      this.db := db;
      this.docker := docker;
    }

    ghost function Now(): World
      reads this, db, docker
    {
      db.With(docker.State())
    }

    method GetAvailablePort() returns (port: Option<nat>)
      ensures port == Ports.FreeContainerPort(Now().UsedByContainers())
    {
      var used := set r | r in db.rows && db.rows[r].hostPort.Some? :: db.rows[r].hostPort.value;
      assert used == Now().UsedByContainers();
      port := Ports.ScanContainerPorts(used);
    }

    method FindOne(id: RowId, user: UserId, isAdmin: bool) returns (access: Outcome)
      ensures access == Access(Now(), id, user, isAdmin)
    {
      if id !in db.rows || db.rows[id].project !in db.projects {
        return NotFound;
      }
      if !isAdmin && db.projects[db.rows[id].project].owner != user {
        return Forbidden;
      }
      return Ok;
    }

    method Create(user: UserId, project: ProjectId, dto: CreateDto, f: Faults) returns (r: Outcome)
      modifies db, docker
      ensures (Now(), r) == CreateSpec(old(Now()), user, project, dto, f)
    {
      if project !in db.projects {
        return NotFound;
      }
      if db.projects[project].owner != user {
        return Forbidden;
      }
      var tag := if Filled(dto.imageTag).Some? then dto.imageTag.value else "latest";
      var hostPort := NonZero(dto.hostPort);
      if hostPort.None? {
        hostPort := GetAvailablePort();
        if hostPort.None? {
          return ServerError;
        }
      }
      var id := docker.Create(
        Spec(dto.name, Image(dto.imageName, tag), map[dto.internalPort := hostPort.value], None), f.create);
      if id.None? || f.inspect {
        return ServerError;
      }
      var row := Row(project, id, dto.name, dto.imageName, tag, dto.internalPort, hostPort, None, STOPPED);
      db.rows := db.rows[db.nextRow := row];
      db.nextRow := db.nextRow + 1;
      return Ok;
    }

    method Start(id: RowId, user: UserId, f: Faults) returns (r: Outcome)
      modifies db, docker
      ensures (Now(), r) == StartSpec(old(Now()), id, user, f)
    {
      r := FindOne(id, user, false);
      if r != Ok {
        return;
      }
      var row := db.rows[id];
      if row.dockerId.None? {
        return NotFound;
      }
      var ok := docker.Start(row.dockerId.value, row.dockerId.value in f.start);
      if !ok {
        return ServerError;
      }
      db.rows := db.rows[id := row.(status := RUNNING)];
    }

    method Stop(id: RowId, user: UserId, f: Faults) returns (r: Outcome)
      modifies db, docker
      ensures (Now(), r) == StopSpec(old(Now()), id, user, f)
    {
      r := FindOne(id, user, false);
      if r != Ok {
        return;
      }
      var row := db.rows[id];
      if row.dockerId.None? {
        return NotFound;
      }
      var ok := docker.Stop(row.dockerId.value, row.dockerId.value in f.stop);
      if !ok {
        return ServerError;
      }
      db.rows := db.rows[id := row.(status := STOPPED)];
    }

    method TearDown(d: DockerId, f: Faults)
      modifies docker`containers
      ensures docker.State() == TornDown(old(docker.State()), d, f)
    {
      var _ := docker.Stop(d, d in f.stop);
      var _ := docker.Remove(d, d in f.remove);
    }

    /** The recreation inside the first `try` of a restart. */
    method Recreate(id: RowId, d: DockerId, inspectFailed: bool, f: Faults) returns (made: Option<DockerId>)
      requires id in db.rows && db.rows[id].project in db.projects
      requires inspectFailed == (d !in docker.containers)
      modifies db, docker
      ensures (Now(), made) == RecreateSpec(old(Now()), id, d, f)
    {
      hide RowSpec, TornDown;
      var row := db.rows[id];
      if !inspectFailed {
        TearDown(d, f);
      }
      made := docker.Create(RowSpec(row), f.create);
      if made.Some? {
        db.rows := db.rows[id := row.(dockerId := made)];
        var routed := ExpectedPort(row).Some? && Filled(db.projects[row.project].domain).Some?;
        if routed && f.nginx {
          made := None;
        }
      }
    }

    /** The part of a restart after the first `try`. */
    method RestartContainer(id: RowId, d: DockerId, f: Faults) returns (r: Outcome)
      requires id in db.rows && db.rows[id].project in db.projects
      modifies db, docker
      ensures (Now(), r) == RestartContainerSpec(old(Now()), id, d, f)
    {
      var ok := docker.Restart(d, f.restart);
      if !ok {
        return ServerError;
      }
      var updated := db.rows[id].(status := RUNNING);
      db.rows := db.rows[id := updated];
      var routed := ExpectedPort(updated).Some? && Filled(db.projects[updated.project].domain).Some?;
      r := if routed && f.nginxSync then ServerError else Ok;
    }

    method Restart(id: RowId, user: UserId, f: Faults) returns (r: Outcome)
      modifies db, docker
      ensures (Now(), r) == RestartSpec(old(Now()), id, user, f)
    {
      r := FindOne(id, user, false);
      if r != Ok {
        return;
      }
      var row := db.rows[id];
      if row.dockerId.None? {
        return NotFound;
      }
      var dockerId := row.dockerId.value;
      var recreateFailed := false;
      var inspectFailed := false;
      var currentHostPort: Option<nat> := None;

      var inspected := docker.Inspect(dockerId);
      if f.inspect {
        recreateFailed := true;
      } else if inspected.None? {
        inspectFailed := true;
      } else if row.internalPort in inspected.value.spec.bindings {
        currentHostPort := Some(inspected.value.spec.bindings[row.internalPort]);
      }

      if !recreateFailed {
        if currentHostPort != ExpectedPort(row) || inspectFailed {
          var made := Recreate(id, dockerId, inspectFailed, f);
          if made.None? {
            recreateFailed := true;
          } else {
            dockerId := made.value;
          }
        }
      }

      if !recreateFailed {
        r := RestartContainer(id, dockerId, f);
      } else {
        r := ServerError;
      }
    }

    method Remove(id: RowId, user: UserId, f: Faults) returns (r: Outcome)
      modifies db, docker
      ensures (Now(), r) == RemoveSpec(old(Now()), id, user, f)
    {
      r := FindOne(id, user, false);
      if r != Ok {
        return;
      }
      var row := db.rows[id];
      if row.dockerId.Some? {
        var d := row.dockerId.value;
        TearDown(d, f);
      }
      db.rows := db.rows - {id};
    }

    /** The three removal attempts of `updateResources`. */
    method Clear(row: Row, d: DockerId, f: Faults)
      modifies docker`containers
      ensures docker.State() == Cleared(old(docker.State()), row, d, f)
    {
      TearDown(d, f);
      var _ := docker.RemoveNamed(row.name, f.removeNamed);
    }

    method Remake(id: RowId, dto: ResourcesDto, f: Faults) returns (ok: bool)
      requires id in db.rows
      modifies db`rows, docker
      ensures (Now(), ok) == RemadeSpec(old(Now()), id, dto, f)
      ensures id in db.rows
    {
      hide RebuiltSpec;
      var row := db.rows[id];
      var made := docker.Create(RebuiltSpec(row, dto), f.create);
      if made.None? {
        return false;
      }
      if row.status == RUNNING {
        ok := docker.Start(made.value, made.value in f.start);
        if !ok {
          return;
        }
      }
      db.rows := db.rows[id := row.(dockerId := made)];
      return true;
    }

    /** The recreation inside `updateResources`. */
    method Rebuild(id: RowId, d: DockerId, dto: ResourcesDto, f: Faults) returns (ok: bool)
      requires id in db.rows
      modifies db`rows, docker
      ensures (Now(), ok) == RebuildSpec(old(Now()), id, d, dto, f)
      ensures id in db.rows
    {
      hide Cleared, RemadeSpec;
      Clear(db.rows[id], d, f);
      ok := Remake(id, dto, f);
    }

    method UpdateResources(id: RowId, user: UserId, dto: ResourcesDto, isAdmin: bool, f: Faults) returns (r: Outcome)
      modifies db, docker
      ensures (Now(), r) == UpdateResourcesSpec(old(Now()), id, user, dto, isAdmin, f)
    {
      hide RebuildSpec, WantedVolume, Edited;
      r := FindOne(id, user, isAdmin);
      if r != Ok {
        return;
      }
      var row := db.rows[id];
      var volumeChanged := dto.volume.Some? && dto.volume.value != row.mount;
      var internalPortChanged := dto.internalPort.Some? && dto.internalPort.value != row.internalPort;
      if (volumeChanged || internalPortChanged) && row.dockerId.Some? {
        if WantedVolume(dto).Some? && f.volume {
          return ServerError;
        }
        var ok := Rebuild(id, row.dockerId.value, dto, f);
        if !ok {
          return ServerError;
        }
      } else if row.dockerId.Some? {
        var c := docker.Inspect(row.dockerId.value);
        if f.update || c.None? {
          return ServerError;
        }
      }
      db.rows := db.rows[id := Edited(db.rows[id], dto)];
    }

    method AllocatePort(id: RowId, user: UserId, port: nat, ownFirst: bool, f: Faults) returns (r: Outcome)
      modifies db
      ensures (Now(), r) == AllocatePortSpec(old(Now()), id, user, port, ownFirst, f)
    {
      r := FindOne(id, user, false);
      if r != Ok {
        return;
      }
      if port < Ports.FIRST_ALLOCATABLE_PORT || port > Ports.LAST_ALLOCATABLE_PORT {
        return Forbidden;
      }
      var row := db.rows[id];
      var others := exists r | r in db.rows :: r != id && db.rows[r].hostPort == Some(port);
      if others && !(ownFirst && row.hostPort == Some(port)) {
        return Forbidden;
      }
      db.rows := db.rows[id := row.(hostPort := Some(port))];
      if row.hostPort != Some(port) && Filled(db.projects[row.project].domain).Some? && f.nginx {
        return ServerError;
      }
    }

    method RemovePort(id: RowId, user: UserId) returns (r: Outcome)
      modifies db
      ensures (Now(), r) == RemovePortSpec(old(Now()), id, user)
    {
      r := FindOne(id, user, false);
      if r != Ok {
        return;
      }
      db.rows := db.rows[id := db.rows[id].(hostPort := None)];
    }
  }
}
