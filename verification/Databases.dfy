/** Managed databases: provisioning with a placeholder row, and removal. */
module Databases {
  import opened Options
  import opened Docker
  import opened World
  import Ports
  import Text

  datatype DatabaseType = POSTGRESQL | MYSQL | REDIS | MONGODB

  /** The answers of the image registry are part of the faults (`build`). */
  datatype CreateDto = CreateDto(name: string, kind: DatabaseType, version: string)

  function InternalPort(kind: DatabaseType): nat {
    match kind
    case POSTGRESQL => 5432
    case MYSQL => 3306
    case _ => 6379
  }

  function ImageOf(dto: CreateDto): string {
    if dto.kind == POSTGRESQL then Image("postgres", if dto.version == "latest" then "15-alpine" else dto.version)
    else Image("mysql", if dto.version == "latest" then "8" else dto.version)
  }

  function NewSpec(dto: CreateDto, b: DatabaseId, port: nat): Spec {
    Spec("portdock-db-" + Text.Dashed(Text.Lower(dto.name)), ImageOf(dto), map[InternalPort(dto.kind) := port],
         Some("portdock-dbvol-" + Text.Show(b)))
  }

  function UsedPorts(w: World): set<nat> {
    w.UsedByContainers() + w.UsedByDatabases()
  }

  /** The row as first written, before its id names a volume: no container yet, host port 0. */
  function WithPlaceholder(w: World, user: UserId, kind: DatabaseType): World {
    w.(databases := w.databases[w.nextDatabase := ManagedDatabase(user, None, InternalPort(kind), 0, STOPPED)],
       nextDatabase := w.nextDatabase + 1)
  }

  /** Inside the `try`: the world and the answer whether every step went through. */
  function ProvisionSpec(w: World, b: DatabaseId, dto: CreateDto, f: Faults): (World, bool)
    requires b in w.databases
  {
    if f.volume || dto.kind == REDIS || dto.kind == MONGODB || f.build then (w, false)
    else
      var port := Ports.FreeDatabasePort(UsedPorts(w));
      match w.engine.Create(NewSpec(dto, b, port), f.create)
      case (e, None) => (w.(engine := e), false)
      case (e, Some(d)) =>
        var (e', ok) := if f.inspect then (e, false) else e.Start(d, d in f.start);
        if !ok then (w.(engine := e'), false)
        else
          var row := w.databases[b].(dockerId := Some(d), hostPort := port, status := RUNNING);
          (w.(engine := e', databases := w.databases[b := row]), true)
  }

  function CreateSpec(w: World, user: UserId, dto: CreateDto, f: Faults): (World, Outcome) {
    var b := w.nextDatabase;
    var (w', ok) := ProvisionSpec(WithPlaceholder(w, user, dto.kind), b, dto, f);
    if ok then (w', Ok) else (w'.(databases := w'.databases - {b}), ServerError)
  }

  function RemoveSpec(w: World, b: DatabaseId, user: UserId, f: Faults): (World, Outcome) {
    if b !in w.databases then (w, NotFound)
    else if w.databases[b].owner != user then (w, Forbidden)
    else
      var e := match w.databases[b].dockerId
        case None => w.engine
        case Some(d) => w.engine.Stop(d, d in f.stop).0.Remove(d, d in f.remove).0;
      (w.(engine := e, databases := w.databases - {b}), Ok)
  }

  class DatabasesService {
    const db: Store
    const docker: Daemon

    constructor (db: Store, docker: Daemon)
      ensures this.db == db && this.docker == docker
    {
      this.db := db;
      this.docker := docker;
    }

    ghost function Now(): World
      reads this, db, docker
    {
      db.With(docker.State())
    }

    method Provision(b: DatabaseId, dto: CreateDto, f: Faults) returns (ok: bool)
      requires b in db.databases
      modifies db`databases, docker
      ensures (Now(), ok) == ProvisionSpec(old(Now()), b, dto, f)
    {
      if f.volume {
        return false;
      }
      var used := (set r | r in db.rows && db.rows[r].hostPort.Some? :: db.rows[r].hostPort.value)
                  + (set x | x in db.databases :: db.databases[x].hostPort);
      assert used == UsedPorts(Now());
      var hostPort := Ports.ScanDatabasePorts(used);
      if dto.kind != POSTGRESQL && dto.kind != MYSQL {
        return false;
      }
      if f.build {
        return false;
      }
      var id := docker.Create(NewSpec(dto, b, hostPort), f.create);
      if id.None? || f.inspect {
        return false;
      }
      ok := docker.Start(id.value, id.value in f.start);
      if ok {
        db.databases := db.databases[b := db.databases[b].(dockerId := id, hostPort := hostPort, status := RUNNING)];
      }
    }

    method Create(user: UserId, dto: CreateDto, f: Faults) returns (r: Outcome)
      modifies db, docker
      ensures (Now(), r) == CreateSpec(old(Now()), user, dto, f)
    {
      var b := db.nextDatabase;
      db.databases := db.databases[b := ManagedDatabase(user, None, InternalPort(dto.kind), 0, STOPPED)];
      db.nextDatabase := b + 1;
      var ok := Provision(b, dto, f);
      if ok {
        return Ok;
      }
      db.databases := db.databases - {b};
      return ServerError;
    }

    method Remove(b: DatabaseId, user: UserId, f: Faults) returns (r: Outcome)
      modifies db, docker
      ensures (Now(), r) == RemoveSpec(old(Now()), b, user, f)
    {
      if b !in db.databases {
        return NotFound;
      }
      var row := db.databases[b];
      if row.owner != user {
        return Forbidden;
      }
      if row.dockerId.Some? {
        var d := row.dockerId.value;
        var _ := docker.Stop(d, d in f.stop);
        var _ := docker.Remove(d, d in f.remove);
      }
      db.databases := db.databases - {b};
      return Ok;
    }
  }

  /** The engine is as before or has one more container, under a free name. */
  lemma ProvisionOneContainer(w: World, b: DatabaseId, dto: CreateDto, f: Faults)
    requires b in w.databases
    ensures var (w', ok) := ProvisionSpec(w, b, dto, f);
      var c := Container(NewSpec(dto, b, Ports.FreeDatabasePort(UsedPorts(w))), ok);
      && (w'.engine != w.engine ==>
            && !w.engine.NameTaken(c.spec.name)
            && w'.engine == Engine(w.engine.containers[w.engine.next := c], w.engine.next + 1))
      && (ok ==>
            && w'.engine != w.engine
            && w'.databases[b].dockerId == Some(w.engine.next) && w'.databases[b].status == RUNNING)
  {
    var spec := NewSpec(dto, b, Ports.FreeDatabasePort(UsedPorts(w)));
    assert w.engine.containers[w.engine.next := Container(spec, false)][w.engine.next := Container(spec, true)]
        == w.engine.containers[w.engine.next := Container(spec, true)];
  }

  lemma ProvisionEffect(w: World, b: DatabaseId, dto: CreateDto, f: Faults)
    requires b in w.databases && w.databases[b].internalPort == InternalPort(dto.kind)
    ensures var (w', ok) := ProvisionSpec(w, b, dto, f);
      && w' == w.(engine := w'.engine, databases := w'.databases)
      && (!ok ==> w'.databases == w.databases)
      && (ok ==>
            && w'.databases.Keys == w.databases.Keys
            && (forall x | x in w.databases && x != b :: w'.databases[x] == w.databases[x])
            && Serves(w', b) && w'.databases[b].hostPort == Ports.FreeDatabasePort(UsedPorts(w)))
  {
    hide ImageOf, UsedPorts, Ports.FreeDatabasePort, Engine.Create, Engine.Start;
    ProvisionOneContainer(w, b, dto, f);
  }

  /** The row names a running container that is bound to the row's host port. */
  predicate Serves(w: World, b: DatabaseId)
    requires b in w.databases
  {
    var row := w.databases[b];
    && row.dockerId.Some? && row.dockerId.value in w.engine.containers
    && w.engine.containers[row.dockerId.value].running
    && w.engine.BoundPort(row.dockerId.value, row.internalPort) == Some(row.hostPort)
  }

  /**
   Provisioning is all or nothing for the rows: a request either adds one
   database that names a running container on the least free port from 40000,
   or leaves the database table as it was.
   */
  lemma CreateIsAllOrNothing(w: World, user: UserId, dto: CreateDto, f: Faults)
    requires w.Valid()
    ensures var (w', r) := CreateSpec(w, user, dto, f);
      var b := w.nextDatabase;
      && w' == w.(engine := w'.engine, databases := w'.databases, nextDatabase := b + 1)
      && (r != Ok ==> r == ServerError && w'.databases == w.databases)
      && (r == Ok ==>
            && w'.databases.Keys == w.databases.Keys + {b}
            && (forall x | x in w.databases :: w'.databases[x] == w.databases[x])
            && Serves(w', b)
            && Ports.IsLeastFree(UsedPorts(w), Ports.FIRST_DATABASE_PORT, w'.databases[b].hostPort))
  {
    var placed := WithPlaceholder(w, user, dto.kind);
    PlaceholderPorts(w, user, dto.kind);
    ProvisionEffect(placed, w.nextDatabase, dto, f);
    assert placed.databases - {w.nextDatabase} == w.databases;
  }

  /** The placeholder adds port 0, which the scan never looks at. */
  lemma PlaceholderPorts(w: World, user: UserId, kind: DatabaseType)
    requires w.Valid()
    ensures forall q: nat | q > 0 :: q in UsedPorts(WithPlaceholder(w, user, kind)) <==> q in UsedPorts(w)
  {
    var placed := WithPlaceholder(w, user, kind);
    assert placed.UsedByContainers() == w.UsedByContainers();
    assert placed.databases[w.nextDatabase].hostPort == 0;
    forall q: nat | q in w.UsedByDatabases() ensures q in placed.UsedByDatabases() {
      var b :| b in w.databases && w.databases[b].hostPort == q;
      assert b in placed.databases && placed.databases[b].hostPort == q;
    }
  }
}
