/**
 Deployments: one multi-step transaction with a compensating `catch`, for the
 three ways of providing the code.  The three request handlers run the same
 steps; they differ in how the build directory is filled, in the name the new
 row gets, and in the repository a GitHub deployment records.
 */
module Deployments {
  import opened Options
  import opened Docker
  import opened World
  import Ports
  import Text

  datatype Kind = Zip | Github(repository: string) | Dockerfile

  /** What a deployment takes from its request, from the built image and from the clock. */
  datatype DeployInput = DeployInput(
    kind: Kind, customPort: Option<nat>, detectedPort: nat, imageStamp: nat, dockerStamp: nat, rowStamp: nat)

  function InternalPort(input: DeployInput): nat {
    if NonZero(input.customPort).Some? then input.customPort.value else input.detectedPort
  }

  function StampedName(projectName: string, stamp: nat): string {
    Text.Dashed(Text.Lower(projectName)) + "-" + Text.Show(stamp)
  }

  function ImageName(p: ProjectId): string {
    "portdock-" + Text.Show(p)
  }

  function ImageTag(input: DeployInput): string {
    "v" + Text.Show(input.imageStamp)
  }

  /** Zip and Dockerfile deployments read the clock once more for the row's name. */
  function RowName(project: Project, input: DeployInput): string {
    StampedName(project.name, if input.kind.Github? then input.dockerStamp else input.rowStamp)
  }

  function NewSpec(p: ProjectId, project: Project, input: DeployInput, port: nat): Spec {
    Spec(StampedName(project.name, input.dockerStamp), Image(ImageName(p), ImageTag(input)),
         map[InternalPort(input) := port], None)
  }

  function NewRow(p: ProjectId, project: Project, input: DeployInput, port: nat, d: DockerId): Row {
    Row(p, Some(d), RowName(project, input), ImageName(p), ImageTag(input),
        InternalPort(input), Some(port), None, RUNNING)
  }

  // ----------------------------------------------------------------- cleanup

  function OldRows(w: World, p: ProjectId, keep: RowId): set<RowId> {
    set r | r in w.rows && w.rows[r].project == p && r != keep
  }

  /** The containers that the given rows name. */
  function Named(rows: map<RowId, Row>, ids: set<RowId>): set<DockerId> {
    set r | r in ids && r in rows && rows[r].dockerId.Some? :: rows[r].dockerId.value
  }

  /** All other rows of the project go, and so does every container of theirs whose removal succeeds. */
  function CleanupSpec(w: World, p: ProjectId, keep: RowId, f: Faults): World {
    var gone := OldRows(w, p, keep);
    w.(rows := w.rows - gone,
       engine := w.engine.(containers := w.engine.containers - (Named(w.rows, gone) - f.remove)))
  }

  // ------------------------------------------------------------- transaction

  function Begun(w: World, p: ProjectId, kind: Kind): World
    requires p in w.projects
  {
    var project := w.projects[p].(status := IN_BUILD);
    w.(projects := w.projects[p := if kind.Github? then project.(repository := Some(kind.repository)) else project],
       deployments := w.deployments[w.nextDeployment := Deployment(p, InProgress, 0)],
       nextDeployment := w.nextDeployment + 1)
  }

  function Finished(w: World, p: ProjectId, n: DeploymentId): World
    requires p in w.projects && n in w.deployments
  {
    w.(projects := w.projects[p := w.projects[p].(status := ACTIVE)],
       deployments := w.deployments[n := w.deployments[n].(status := Success, progress := 100)])
  }

  function Compensated(w: World, p: ProjectId, n: DeploymentId): World
    requires p in w.projects && n in w.deployments
  {
    w.(projects := w.projects[p := w.projects[p].(status := FAILED)],
       deployments := w.deployments[n := w.deployments[n].(status := Failed)])
  }

  /** From the build to the start of the new container: the world and the new container with its port. */
  function LaunchSpec(w: World, p: ProjectId, input: DeployInput, f: Faults): (World, Option<(DockerId, nat)>)
    requires p in w.projects
  {
    if f.prepare || f.build then (w, None)
    else
      match Ports.FreeContainerPort(w.UsedByContainers())
      case None => (w, None)
      case Some(port) =>
        match w.engine.Create(NewSpec(p, w.projects[p], input, port), f.create) {
          case (e, None) => (w.(engine := e), None)
          case (e, Some(d)) =>
            var (e', ok) := if f.inspect then (e, false) else e.Start(d, d in f.start);
            (w.(engine := e'), if ok then Some((d, port)) else None)
        }
  }

  /** Record the new container, drop the old ones and report success. */
  function CommitSpec(
      w: World, p: ProjectId, n: DeploymentId, input: DeployInput, d: DockerId, port: nat, f: Faults): World
    requires p in w.projects && n in w.deployments
  {
    var inserted := w.(rows := w.rows[w.nextRow := NewRow(p, w.projects[p], input, port, d)], nextRow := w.nextRow + 1);
    Finished(CleanupSpec(inserted, p, w.nextRow, f), p, n)
  }

  function DeploySpec(w: World, user: UserId, p: ProjectId, input: DeployInput, f: Faults): (World, Outcome) {
    if p !in w.projects then (w, NotFound)
    else if w.projects[p].owner != user then (w, Forbidden)
    else
      var n := w.nextDeployment;
      match LaunchSpec(Begun(w, p, input.kind), p, input, f)
      case (w', None) => (Compensated(w', p, n), BadRequest)
      case (w', Some((d, port))) =>
        var done := CommitSpec(w', p, n, input, d, port, f);
        if Filled(w.projects[p].domain).Some? && f.nginx then (Compensated(done, p, n), BadRequest) else (done, Ok)
  }

  // ----------------------------------------------------------------- service

  class DeploymentsService {
    const db: Store
    const docker: Daemon

    constructor (db: Store, docker: Daemon)
      ensures this.db == db && this.docker == docker
    {
      this.db := db;
      this.docker := docker;
    }

    ghost function Now(): World
      reads this, db, docker
    {
      db.With(docker.State())
    }

    /** One step of the deletion loop. */
    lemma CleanupStep(rows: map<RowId, Row>, e: Engine, done: set<RowId>, r: RowId, failing: set<DockerId>)
      requires r in rows
      ensures var id := rows[r].dockerId;
        var before := e.(containers := e.containers - (Named(rows, done) - failing));
        e.containers - (Named(rows, done + {r}) - failing) ==
          if id.None? then before.containers else before.Remove(id.value, id.value in failing).0.containers
    {
      assert rows[r].dockerId.None? ==> Named(rows, done + {r}) == Named(rows, done);
      assert rows[r].dockerId.Some? ==> Named(rows, done + {r}) == Named(rows, done) + {rows[r].dockerId.value};
    }

    lemma NothingNamed(rows: map<RowId, Row>, containers: map<DockerId, Container>, failing: set<DockerId>)
      ensures containers - (Named(rows, {}) - failing) == containers
    {
    }

    /** The deletion loop, over the rows in whatever order the query lists them. */
    method CleanupOldContainers(p: ProjectId, keep: RowId, f: Faults)
      modifies db`rows, docker`containers
      ensures Now() == CleanupSpec(old(Now()), p, keep, f)
    {
      hide Named, Engine.Remove;
      var gone := set r | r in db.rows && db.rows[r].project == p && r != keep;
      var todo := gone;
      assert gone - todo == {};
      NothingNamed(db.rows, docker.containers, f.remove);
      while todo != {}
        invariant todo <= gone
        invariant db.rows == old(db.rows) - (gone - todo)
        invariant docker.containers == old(docker.containers) - (Named(old(db.rows), gone - todo) - f.remove)
        decreases todo
      {
        var r :| r in todo;
        var row := db.rows[r];
        ghost var done := gone - todo;
        CleanupStep(old(db.rows), old(docker.State()), done, r, f.remove);
        if row.dockerId.Some? {
          var _ := docker.Remove(row.dockerId.value, row.dockerId.value in f.remove);
        }
        db.rows := db.rows - {r};
        todo := todo - {r};
        assert gone - todo == done + {r};
      }
      assert gone - todo == gone;
    }

    method Launch(p: ProjectId, input: DeployInput, f: Faults) returns (made: Option<(DockerId, nat)>)
      requires p in db.projects
      modifies docker
      ensures (Now(), made) == LaunchSpec(old(Now()), p, input, f)
    {
      if f.prepare {
        return None;
      }
      if f.build {
        return None;
      }
      var used := set r | r in db.rows && db.rows[r].hostPort.Some? :: db.rows[r].hostPort.value;
      assert used == Now().UsedByContainers();
      var hostPort := Ports.ScanContainerPorts(used);
      if hostPort.None? {
        return None;
      }
      var id := docker.Create(NewSpec(p, db.projects[p], input, hostPort.value), f.create);
      if id.None? || f.inspect {
        return None;
      }
      var ok := docker.Start(id.value, id.value in f.start);
      if !ok {
        return None;
      }
      made := Some((id.value, hostPort.value));
    }

    method Begin(p: ProjectId, kind: Kind) returns (n: DeploymentId)
      requires p in db.projects
      modifies db
      ensures Now() == Begun(old(Now()), p, kind) && n == old(db.nextDeployment)
    {
      var project := db.projects[p].(status := IN_BUILD);
      if kind.Github? {
        project := project.(repository := Some(kind.repository));
      }
      db.projects := db.projects[p := project];
      n := db.nextDeployment;
      db.deployments := db.deployments[n := Deployment(p, InProgress, 0)];
      db.nextDeployment := n + 1;
    }

    method Commit(p: ProjectId, n: DeploymentId, input: DeployInput, d: DockerId, hostPort: nat, f: Faults)
      requires p in db.projects && n in db.deployments
      modifies db, docker`containers
      ensures Now() == CommitSpec(old(Now()), p, n, input, d, hostPort, f)
    {
      var row := db.nextRow;
      db.rows := db.rows[row := NewRow(p, db.projects[p], input, hostPort, d)];
      db.nextRow := row + 1;
      CleanupOldContainers(p, row, f);
      db.projects := db.projects[p := db.projects[p].(status := ACTIVE)];
      db.deployments := db.deployments[n := db.deployments[n].(status := Success, progress := 100)];
    }

    /** The transaction: the label plays the `try`, and a failing step leaves it for the `catch`. */
    method Deploy(user: UserId, p: ProjectId, input: DeployInput, f: Faults) returns (r: Outcome)
      modifies db, docker
      ensures (Now(), r) == DeploySpec(old(Now()), user, p, input, f)
    {
      if p !in db.projects {
        return NotFound;
      }
      var project := db.projects[p];
      if project.owner != user {
        return Forbidden;
      }
      var n := Begin(p, input.kind);
      label Try: {
        var made := Launch(p, input, f);
        if made.None? {
          break Try;
        }
        var (d, hostPort) := made.value;
        Commit(p, n, input, d, hostPort, f);
        if Filled(project.domain).Some? && f.nginx {
          break Try;
        }
        return Ok;
      }
      db.projects := db.projects[p := db.projects[p].(status := FAILED)];
      db.deployments := db.deployments[n := db.deployments[n].(status := Failed)];
      return BadRequest;
    }
  }

  // -------------------------------------------------------------- properties

  /** The condition under which a deployment goes through, in terms of what holds before it. */
  predicate DeploySucceeds(w: World, p: ProjectId, input: DeployInput, f: Faults)
    requires p in w.projects
  {
    && LaunchSucceeds(w, p, input, f)
    && !(Filled(w.projects[p].domain).Some? && f.nginx)
  }

  predicate LaunchSucceeds(w: World, p: ProjectId, input: DeployInput, f: Faults)
    requires p in w.projects
  {
    && !f.prepare && !f.build && !f.create && !f.inspect
    && Ports.FreeContainerPort(w.UsedByContainers()).Some?
    && !w.engine.NameTaken(StampedName(w.projects[p].name, input.dockerStamp))
    && w.engine.next !in f.start
  }

  /** What the launch does: nothing but the engine changes, and there only the new container appears. */
  lemma LaunchEffect(w: World, p: ProjectId, input: DeployInput, f: Faults)
    requires p in w.projects
    ensures var (w', made) := LaunchSpec(w, p, input, f);
      && w' == w.(engine := w'.engine)
      && (made.Some? <==> LaunchSucceeds(w, p, input, f))
      && (made.Some? ==>
            && Ports.FreeContainerPort(w.UsedByContainers()) == Some(made.value.1)
            && made.value.0 == w.engine.next
            && var spec := NewSpec(p, w.projects[p], input, made.value.1);
               w'.engine == Engine(w.engine.containers[w.engine.next := Container(spec, true)], w.engine.next + 1))
      && (made.None? ==>
            || w'.engine == w.engine
            || (exists spec ::
                  w'.engine == Engine(w.engine.containers[w.engine.next := Container(spec, false)], w.engine.next + 1)))
  {
    var (w', made) := LaunchSpec(w, p, input, f);
    if made.None? && w'.engine != w.engine {
      var port := Ports.FreeContainerPort(w.UsedByContainers()).value;
      var spec := NewSpec(p, w.projects[p], input, port);
      assert w'.engine == Engine(w.engine.containers[w.engine.next := Container(spec, false)], w.engine.next + 1);
    }
    if made.Some? {
      var spec := NewSpec(p, w.projects[p], input, made.value.1);
      assert w.engine.containers[w.engine.next := Container(spec, false)][w.engine.next := Container(spec, true)]
          == w.engine.containers[w.engine.next := Container(spec, true)];
    }
  }

  lemma BegunLaunch(w: World, p: ProjectId, input: DeployInput, f: Faults)
    requires p in w.projects
    ensures LaunchSucceeds(Begun(w, p, input.kind), p, input, f) <==> LaunchSucceeds(w, p, input, f)
    ensures Begun(w, p, input.kind).UsedByContainers() == w.UsedByContainers()
  {
    assert Begun(w, p, input.kind).UsedByContainers() == w.UsedByContainers();
  }

  /** The project and the deployment agree with each other and with the answer; all other ones are as before. */
  ghost predicate EndsConsistently(w: World, p: ProjectId, kind: Kind, w': World, r: Outcome) {
    var n := w.nextDeployment;
    && (r == Ok || r == BadRequest)
    && w'.projects.Keys == w.projects.Keys && w'.deployments.Keys == w.deployments.Keys + {n}
    && p in w.projects
    && w'.projects[p] == w.projects[p].(
          status := if r == Ok then ACTIVE else FAILED,
          repository := if kind.Github? then Some(kind.repository) else w.projects[p].repository)
    && w'.deployments[n].project == p
    && w'.deployments[n].status == (if r == Ok then Success else Failed)
    && (r == Ok ==> w'.deployments[n].progress == 100)
    && (forall q | q in w.projects && q != p :: w'.projects[q] == w.projects[q])
    && (forall m | m in w.deployments && m != n :: w'.deployments[m] == w.deployments[m])
    && w'.databases == w.databases
  }

  /** The two endings, from any state whose rows, engine and counters differ from the begun one. */
  lemma EndingsAreConsistent(w: World, p: ProjectId, kind: Kind, w1: World)
    requires p in w.projects
    requires w1 == Begun(w, p, kind).(rows := w1.rows, nextRow := w1.nextRow, engine := w1.engine)
    ensures EndsConsistently(w, p, kind, Finished(w1, p, w.nextDeployment), Ok)
    ensures EndsConsistently(w, p, kind, Compensated(w1, p, w.nextDeployment), BadRequest)
  {
  }

  /** A success that is taken back. */
  lemma TakenBackIsConsistent(w: World, p: ProjectId, kind: Kind, w1: World)
    requires p in w.projects
    requires w1 == Begun(w, p, kind).(rows := w1.rows, nextRow := w1.nextRow, engine := w1.engine)
    ensures EndsConsistently(w, p, kind,
        Compensated(Finished(w1, p, w.nextDeployment), p, w.nextDeployment), BadRequest)
  {
  }

  /**
   Whichever step fails, the request ends in one of two consistent ways: it
   returns with the project ACTIVE and the deployment a complete success, or it
   throws with the project FAILED and the deployment Failed.
   */
  lemma DeployEndsConsistently(w: World, user: UserId, p: ProjectId, input: DeployInput, f: Faults)
    requires p in w.projects && w.projects[p].owner == user
    ensures var (w', r) := DeploySpec(w, user, p, input, f);
      && EndsConsistently(w, p, input.kind, w', r) && (r == Ok <==> DeploySucceeds(w, p, input, f))
      && w'.deployments[w.nextDeployment].progress == if LaunchSucceeds(w, p, input, f) then 100 else 0
  {
    var begun := Begun(w, p, input.kind);
    LaunchEffect(begun, p, input, f);
    BegunLaunch(w, p, input, f);
    var (w1, made) := LaunchSpec(begun, p, input, f);
    EndingsAreConsistent(w, p, input.kind, w1);
    if made.Some? {
      var (d, port) := made.value;
      var inserted := w1.(rows := w1.rows[w1.nextRow := NewRow(p, w1.projects[p], input, port, d)],
          nextRow := w1.nextRow + 1);
      EndingsAreConsistent(w, p, input.kind, CleanupSpec(inserted, p, w1.nextRow, f));
      TakenBackIsConsistent(w, p, input.kind, CleanupSpec(inserted, p, w1.nextRow, f));
    }
  }

  /**
   A deployment that fails up to the start of its new container leaves every row
   and every earlier container as it was; at most one new container, not
   running and named by no row, stays behind.
   */
  lemma FailedLaunchTouchesNothing(w: World, user: UserId, p: ProjectId, input: DeployInput, f: Faults)
    requires w.Valid() && p in w.projects && w.projects[p].owner == user
    requires !LaunchSucceeds(w, p, input, f)
    ensures var w' := DeploySpec(w, user, p, input, f).0;
      && w'.rows == w.rows
      && w'.engine.containers.Keys <= w.engine.containers.Keys + {w.engine.next}
      && (forall d | d in w.engine.containers ::
          d in w'.engine.containers && w'.engine.containers[d] == w.engine.containers[d])
      && (w.engine.next in w'.engine.containers ==> !w'.engine.containers[w.engine.next].running)
      && (forall r | r in w'.rows :: w'.rows[r].dockerId != Some(w.engine.next))
  {
    LaunchEffect(Begun(w, p, input.kind), p, input, f);
    BegunLaunch(w, p, input, f);
  }

  /** The project's containers were replaced by the one new container d, named by the one new row. */
  ghost predicate Replaced(w: World, p: ProjectId, failing: set<DockerId>, w': World) {
    var d := w.engine.next;
    && w'.RowsOf(p) == {w.nextRow}
    && w'.rows[w.nextRow].dockerId == Some(d) && w'.rows[w.nextRow].status == RUNNING
    && d in w'.engine.containers && w'.engine.containers[d].running
    && w'.rows[w.nextRow].hostPort.Some? && w'.rows[w.nextRow].hostPort == Ports.FreeContainerPort(w.UsedByContainers())
    && w'.engine.BoundPort(d, w'.rows[w.nextRow].internalPort) == w'.rows[w.nextRow].hostPort
    && (forall r :: r in w'.rows && r != w.nextRow <==> r in w.rows && w.rows[r].project != p)
    && (forall r | r in w.rows && w.rows[r].project != p :: w'.rows[r] == w.rows[r])
    && w'.engine.containers.Keys == w.engine.containers.Keys + {d} - (Named(w.rows, w.RowsOf(p)) - failing)
    && (forall c | c in w.engine.containers && c in w'.engine.containers ::
        w'.engine.containers[c] == w.engine.containers[c])
  }

  /** The cleanup right after the new row and its container c were added. */
  lemma CleanupAfterLaunch(w: World, p: ProjectId, row: Row, c: Container, f: Faults)
    requires w.Valid() && row.project == p && row.dockerId == Some(w.engine.next)
    ensures var launched := Engine(w.engine.containers[w.engine.next := c], w.engine.next + 1);
      var inserted := w.(engine := launched, rows := w.rows[w.nextRow := row], nextRow := w.nextRow + 1);
      var cleaned := CleanupSpec(inserted, p, w.nextRow, f);
      var named := Named(w.rows, w.RowsOf(p));
      && w.engine.next !in named
      && cleaned.RowsOf(p) == {w.nextRow} && cleaned.rows[w.nextRow] == row
      && (forall r :: r in cleaned.rows && r != w.nextRow <==> r in w.rows && w.rows[r].project != p)
      && (forall r | r in w.rows && w.rows[r].project != p :: cleaned.rows[r] == w.rows[r])
      && cleaned.engine.containers == launched.containers - (named - f.remove)
  {
    var rows := w.rows[w.nextRow := row];
    var gone := OldRows(w.(rows := rows), p, w.nextRow);
    assert gone == w.RowsOf(p);
    assert Named(rows, gone) == Named(w.rows, w.RowsOf(p));
  }

  lemma CommitReplaces(w: World, p: ProjectId, n: DeploymentId, input: DeployInput, port: nat, spec: Spec, f: Faults)
    requires w.Valid() && p in w.projects && n in w.deployments
    requires Ports.FreeContainerPort(w.UsedByContainers()) == Some(port)
        && spec.bindings == map[InternalPort(input) := port]
    ensures var launched := Engine(w.engine.containers[w.engine.next := Container(spec, true)], w.engine.next + 1);
      Replaced(w, p, f.remove, CommitSpec(w.(engine := launched), p, n, input, w.engine.next, port, f))
  {
    hide CleanupSpec, Named, RowName, ImageName, ImageTag, Ports.FreeContainerPort;
    var row := NewRow(p, w.projects[p], input, port, w.engine.next);
    CleanupAfterLaunch(w, p, row, Container(spec, true), f);
  }

  /**
   Once the new container runs, the project keeps exactly one row, naming that
   running container on the port that was chosen; every old container whose
   removal succeeded is gone, the others are still there, and the rows of other
   projects are unchanged.  This holds even when a later step turns the
   deployment into a failure.
   */
  lemma LaunchedDeploymentReplaces(w: World, user: UserId, p: ProjectId, input: DeployInput, f: Faults)
    requires w.Valid() && p in w.projects && w.projects[p].owner == user
    requires LaunchSucceeds(w, p, input, f)
    ensures Replaced(w, p, f.remove, DeploySpec(w, user, p, input, f).0)
  {
    var begun := Begun(w, p, input.kind);
    LaunchEffect(begun, p, input, f);
    BegunLaunch(w, p, input, f);
    var port := LaunchSpec(begun, p, input, f).1.value.1;
    var spec := NewSpec(p, begun.projects[p], input, port);
    CommitReplaces(begun, p, w.nextDeployment, input, port, spec, f);
    var w1 := LaunchSpec(begun, p, input, f).0;
    var done := CommitSpec(w1, p, w.nextDeployment, input, w.engine.next, port, f);
    assert Replaced(begun, p, f.remove, done);
    ReplacedFrame(begun, w, p, f.remove, done, DeploySpec(w, user, p, input, f).0);
  }

  lemma SameStampedName(name: string, a: nat, b: nat)
    requires StampedName(name, a) == StampedName(name, b)
    ensures a == b
  {
    var head := Text.Dashed(Text.Lower(name)) + "-";
    assert (head + Text.Show(a))[|head|..] == Text.Show(a) && (head + Text.Show(b))[|head|..] == Text.Show(b);
    Text.ShowInjective(a, b);
  }

  lemma LaunchedParts(w: World, user: UserId, p: ProjectId, input: DeployInput, f: Faults, port: nat)
    requires w.Valid() && p in w.projects && w.projects[p].owner == user
    requires LaunchSucceeds(w, p, input, f) && port == Ports.FreeContainerPort(w.UsedByContainers()).value
    ensures var w' := DeploySpec(w, user, p, input, f).0;
      && w'.nextRow == w.nextRow + 1 && w'.engine.next == w.engine.next + 1
      && w.nextRow in w'.rows && w'.rows[w.nextRow] == NewRow(p, w.projects[p], input, port, w.engine.next)
      && w.engine.next in w'.engine.containers
      && w'.engine.containers[w.engine.next].spec == NewSpec(p, w.projects[p], input, port)
  {
    hide EndsConsistently, CommitSpec, NewRow, Ports.FreeContainerPort;
    var begun := Begun(w, p, input.kind);
    LaunchEffect(begun, p, input, f);
    BegunLaunch(w, p, input, f);
    LaunchedDeploymentReplaces(w, user, p, input, f);
    CommittedRow(LaunchSpec(begun, p, input, f).0, p, w.nextDeployment, input, w.engine.next, port, f);
    SameNewRow(begun.projects[p], w.projects[p], p, input, port, w.engine.next);
  }

  lemma SameNewRow(a: Project, b: Project, p: ProjectId, input: DeployInput, port: nat, d: DockerId)
    requires a.name == b.name
    ensures NewRow(p, a, input, port, d) == NewRow(p, b, input, port, d)
    ensures NewSpec(p, a, input, port) == NewSpec(p, b, input, port)
  {
  }

  /**
   What the request determines of the new row and the new container.  The internal
   port is the custom one when that is given and not 0, else the detected one; the
   container binds exactly that port, to the chosen host port, and has no volume.
   Both carry the image of the project and the build.  The names differ by their
   stamps only, and are the same exactly when the deployment comes from GitHub or
   the clock gave the same reading twice.
   */
  lemma LaunchedRow(w: World, user: UserId, p: ProjectId, input: DeployInput, f: Faults)
    requires w.Valid() && p in w.projects && w.projects[p].owner == user
    requires LaunchSucceeds(w, p, input, f)
    ensures var w' := DeploySpec(w, user, p, input, f).0;
      var port := Ports.FreeContainerPort(w.UsedByContainers()).value;
      var base := Text.Dashed(Text.Lower(w.projects[p].name)) + "-";
      var internalPort := if input.customPort in {None, Some(0)} then input.detectedPort else input.customPort.value;
      && w'.nextRow == w.nextRow + 1 && w'.engine.next == w.engine.next + 1
      && w.nextRow in w'.rows && w.engine.next in w'.engine.containers
      && var row, spec := w'.rows[w.nextRow], w'.engine.containers[w.engine.next].spec;
      && row.project == p && row.dockerId == Some(w.engine.next) && row.status == RUNNING
      && row.imageName == "portdock-" + Text.Show(p) && row.imageTag == "v" + Text.Show(input.imageStamp)
      && row.internalPort == internalPort && row.hostPort == Some(port) && row.mount == None
      && row.name == base + Text.Show(if input.kind.Github? then input.dockerStamp else input.rowStamp)
      && spec.name == base + Text.Show(input.dockerStamp)
      && spec.image == "portdock-" + Text.Show(p) + ":" + "v" + Text.Show(input.imageStamp)
      && spec.bindings == map[internalPort := port] && spec.mount == None
      && (row.name == spec.name <==> input.kind.Github? || input.rowStamp == input.dockerStamp)
      && w'.projects.Keys == w.projects.Keys
      && (forall q | q in w.projects :: w'.projects[q].owner == w.projects[q].owner)
  {
    hide DeploySpec, Ports.FreeContainerPort;
    LaunchedParts(w, user, p, input, f, Ports.FreeContainerPort(w.UsedByContainers()).value);
    OwnersStay(w, user, p, input, f);
    if RowName(w.projects[p], input) == StampedName(w.projects[p].name, input.dockerStamp) && !input.kind.Github? {
      SameStampedName(w.projects[p].name, input.rowStamp, input.dockerStamp);
    }
  }

  lemma CommittedRow(w: World, p: ProjectId, n: DeploymentId, input: DeployInput, d: DockerId, port: nat, f: Faults)
    requires p in w.projects && n in w.deployments
    ensures var w' := CommitSpec(w, p, n, input, d, port, f);
      && w'.nextRow == w.nextRow + 1 && w'.engine.next == w.engine.next
      && w.nextRow in w'.rows && w'.rows[w.nextRow] == NewRow(p, w.projects[p], input, port, d)
      && (forall c | c in w'.engine.containers ::
          c in w.engine.containers && w'.engine.containers[c] == w.engine.containers[c])
  {
  }

  lemma OwnersStay(w: World, user: UserId, p: ProjectId, input: DeployInput, f: Faults)
    requires p in w.projects
    ensures var w' := DeploySpec(w, user, p, input, f).0;
      w'.projects.Keys == w.projects.Keys && forall q | q in w.projects :: w'.projects[q].owner == w.projects[q].owner
  {
    var begun := Begun(w, p, input.kind);
    LaunchEffect(begun, p, input, f);
  }

  /** Replacement speaks of rows and containers only. */
  lemma ReplacedFrame(v: World, w: World, p: ProjectId, failing: set<DockerId>, v': World, w': World)
    requires v.rows == w.rows && v.nextRow == w.nextRow && v.engine == w.engine
    requires v'.rows == w'.rows && v'.engine == w'.engine
    requires Replaced(v, p, failing, v')
    ensures Replaced(w, p, failing, w')
  {
    assert v.UsedByContainers() == w.UsedByContainers();
    assert v.RowsOf(p) == w.RowsOf(p) && v'.RowsOf(p) == w'.RowsOf(p);
  }
}
