/** Requests that walk over all containers of a project: suspend, resume and delete. */
module Projects {
  import opened Options
  import opened Docker
  import opened World
  import D = Deployments

  function LoopRows(w: World, p: ProjectId, onlyRunning: bool): set<RowId> {
    set r | r in w.rows && w.rows[r].project == p && (onlyRunning ==> w.rows[r].status == RUNNING)
  }

  /** The containers named by the rows of a project that satisfy the loop's condition. */
  function Targets(w: World, p: ProjectId, onlyRunning: bool): set<DockerId> {
    D.Named(w.rows, LoopRows(w, p, onlyRunning))
  }

  function SetRunning(
      containers: map<DockerId, Container>, ids: set<DockerId>, running: bool): map<DockerId, Container>
  {
    map d | d in containers :: if d in ids then containers[d].(running := running) else containers[d]
  }

  /** `updateMany`: the rows of a project that satisfy the condition get the status. */
  function SetStatus(rows: map<RowId, Row>, p: ProjectId, onlyRunning: bool, status: ContainerStatus): map<RowId, Row> {
    map r | r in rows ::
      if rows[r].project == p && (onlyRunning ==> rows[r].status == RUNNING) then rows[r].(status := status)
      else rows[r]
  }

  /** Every running row's container is stopped, unless its call fails; the rows say STOPPED either way. */
  function SuspendSpec(w: World, p: ProjectId, f: Faults): (World, Outcome) {
    if p !in w.projects then (w, ServerError)
    else
      (w.(engine := w.engine.(containers := SetRunning(w.engine.containers, Targets(w, p, true) - f.stop, false)),
          rows := SetStatus(w.rows, p, true, STOPPED),
          projects := w.projects[p := w.projects[p].(status := INACTIVE)]), Ok)
  }

  /** Every container is started, unless its call fails; the rows say RUNNING either way. */
  function ResumeSpec(w: World, p: ProjectId, f: Faults): (World, Outcome) {
    if p !in w.projects then (w, ServerError)
    else
      (w.(engine := w.engine.(containers := SetRunning(w.engine.containers, Targets(w, p, false) - f.start, true)),
          rows := SetStatus(w.rows, p, false, RUNNING),
          projects := w.projects[p := w.projects[p].(status := ACTIVE)]), Ok)
  }

  /** Stop, then remove, every target: one that could be stopped but not removed stays behind, stopped. */
  function Purged(e: Engine, targets: set<DockerId>, f: Faults): Engine {
    e.(containers := SetRunning(e.containers, targets - f.stop, false) - (targets - f.remove))
  }

  lemma PurgeStep(e: Engine, done: set<DockerId>, d: DockerId, f: Faults)
    ensures Purged(e, done + {d}, f) ==
            Purged(e, done, f).Stop(d, d in f.stop).0.Remove(d, d in f.remove).0
  {
    var stopped := Purged(e, done, f).Stop(d, d in f.stop).0;
    var after := stopped.Remove(d, d in f.remove).0;
    assert Purged(e, done + {d}, f).containers.Keys == after.containers.Keys;
    assert Purged(e, done + {d}, f).containers == after.containers;
  }

  function RemoveSpec(w: World, p: ProjectId, user: UserId, f: Faults): (World, Outcome) {
    if p !in w.projects then (w, NotFound)
    else if w.projects[p].owner != user then (w, Forbidden)
    else
      (w.(engine := Purged(w.engine, Targets(w, p, false), f),
          rows := w.rows - w.RowsOf(p),
          deployments := map n | n in w.deployments && w.deployments[n].project != p :: w.deployments[n],
          projects := w.projects - {p}), Ok)
  }

  class ProjectsService {
    const db: Store
    const docker: Daemon

    constructor (db: Store, docker: Daemon)
      ensures this.db == db && this.docker == docker
    {
      this.db := db;
      this.docker := docker;
    }

    ghost function Now(): World
      reads this, db, docker
    {
      db.With(docker.State())
    }

    /** One step of the three loops adds one row's container to the set already treated. */
    lemma NamedStep(rows: map<RowId, Row>, done: set<RowId>, r: RowId)
      requires r in rows
      ensures rows[r].dockerId.None? ==> D.Named(rows, done + {r}) == D.Named(rows, done)
      ensures rows[r].dockerId.Some? ==> D.Named(rows, done + {r}) == D.Named(rows, done) + {rows[r].dockerId.value}
    {
    }

    lemma NothingSet(rows: map<RowId, Row>, containers: map<DockerId, Container>, faults: set<DockerId>, running: bool)
      ensures SetRunning(containers, D.Named(rows, {}) - faults, running) == containers
    {
    }

    lemma NothingPurged(rows: map<RowId, Row>, e: Engine, f: Faults)
      ensures Purged(e, D.Named(rows, {}), f) == e
    {
      assert Purged(e, D.Named(rows, {}), f).containers == e.containers;
    }

    lemma StopStep(e: Engine, done: set<DockerId>, d: DockerId, faults: set<DockerId>)
      ensures SetRunning(e.containers, done + {d} - faults, false) ==
              e.(containers := SetRunning(e.containers, done - faults, false)).Stop(d, d in faults).0.containers
    {
    }

    lemma StartStep(e: Engine, done: set<DockerId>, d: DockerId, faults: set<DockerId>)
      ensures SetRunning(e.containers, done + {d} - faults, true) ==
              e.(containers := SetRunning(e.containers, done - faults, true)).Start(d, d in faults).0.containers
    {
    }

    /** The loop of a suspension, over the rows in whatever order the query lists them. */
    method StopAll(all: set<RowId>, f: Faults)
      requires all <= db.rows.Keys
      modifies docker`containers
      ensures docker.containers == SetRunning(old(docker.containers), D.Named(db.rows, all) - f.stop, false)
    {
      hide SetRunning, D.Named, Engine.Stop;
      var todo := all;
      NothingSet(db.rows, docker.containers, f.stop, false);
      assert all - todo == {};
      while todo != {}
        invariant todo <= all
        invariant docker.containers == SetRunning(old(docker.containers), D.Named(db.rows, all - todo) - f.stop, false)
        modifies docker`containers
        decreases todo
      {
        var c :| c in todo;
        NamedStep(db.rows, all - todo, c);
        if db.rows[c].dockerId.Some? {
          var d := db.rows[c].dockerId.value;
          StopStep(old(docker.State()), D.Named(db.rows, all - todo), d, f.stop);
          var _ := docker.Stop(d, d in f.stop);
        }
        assert all - (todo - {c}) == all - todo + {c};
        todo := todo - {c};
      }
      assert all - todo == all;
    }

    method Suspend(p: ProjectId, f: Faults) returns (r: Outcome)
      modifies db, docker
      ensures (Now(), r) == SuspendSpec(old(Now()), p, f)
    {
      if p !in db.projects {
        return ServerError;
      }
      var all := set r | r in db.rows && db.rows[r].project == p && db.rows[r].status == RUNNING;
      assert all == LoopRows(Now(), p, true);
      StopAll(all, f);
      db.rows := SetStatus(db.rows, p, true, STOPPED);
      db.projects := db.projects[p := db.projects[p].(status := INACTIVE)];
      return Ok;
    }

    /** The loop of a resumption. */
    method StartAll(all: set<RowId>, f: Faults)
      requires all <= db.rows.Keys
      modifies docker`containers
      ensures docker.containers == SetRunning(old(docker.containers), D.Named(db.rows, all) - f.start, true)
    {
      hide SetRunning, D.Named, Engine.Start;
      var todo := all;
      NothingSet(db.rows, docker.containers, f.start, true);
      assert all - todo == {};
      while todo != {}
        invariant todo <= all
        invariant docker.containers == SetRunning(old(docker.containers), D.Named(db.rows, all - todo) - f.start, true)
        modifies docker`containers
        decreases todo
      {
        var c :| c in todo;
        NamedStep(db.rows, all - todo, c);
        if db.rows[c].dockerId.Some? {
          var d := db.rows[c].dockerId.value;
          StartStep(old(docker.State()), D.Named(db.rows, all - todo), d, f.start);
          var _ := docker.Start(d, d in f.start);
        }
        assert all - (todo - {c}) == all - todo + {c};
        todo := todo - {c};
      }
      assert all - todo == all;
    }

    method Resume(p: ProjectId, f: Faults) returns (r: Outcome)
      modifies db, docker
      ensures (Now(), r) == ResumeSpec(old(Now()), p, f)
    {
      if p !in db.projects {
        return ServerError;
      }
      var all := set r | r in db.rows && db.rows[r].project == p;
      assert all == LoopRows(Now(), p, false);
      StartAll(all, f);
      db.rows := SetStatus(db.rows, p, false, RUNNING);
      db.projects := db.projects[p := db.projects[p].(status := ACTIVE)];
      return Ok;
    }

    /** The loop of a removal. */
    method PurgeAll(all: set<RowId>, f: Faults)
      requires all <= db.rows.Keys
      modifies docker`containers
      ensures docker.State() == Purged(old(docker.State()), D.Named(db.rows, all), f)
    {
      hide Purged, D.Named, Engine.Stop, Engine.Remove;
      var todo := all;
      NothingPurged(db.rows, docker.State(), f);
      assert all - todo == {};
      while todo != {}
        invariant todo <= all
        invariant docker.State() == Purged(old(docker.State()), D.Named(db.rows, all - todo), f)
        modifies docker`containers
        decreases todo
      {
        var c :| c in todo;
        NamedStep(db.rows, all - todo, c);
        if db.rows[c].dockerId.Some? {
          var d := db.rows[c].dockerId.value;
          PurgeStep(old(docker.State()), D.Named(db.rows, all - todo), d, f);
          var _ := docker.Stop(d, d in f.stop);
          var _ := docker.Remove(d, d in f.remove);
        }
        assert all - (todo - {c}) == all - todo + {c};
        todo := todo - {c};
      }
      assert all - todo == all;
    }

    method Remove(p: ProjectId, user: UserId, f: Faults) returns (r: Outcome)
      modifies db, docker
      ensures (Now(), r) == RemoveSpec(old(Now()), p, user, f)
    {
      if p !in db.projects {
        return NotFound;
      }
      if db.projects[p].owner != user {
        return Forbidden;
      }
      var all := set r | r in db.rows && db.rows[r].project == p;
      assert all == LoopRows(Now(), p, false);
      PurgeAll(all, f);
      db.projects := db.projects - {p};
      db.rows := db.rows - all;
      db.deployments := map n | n in db.deployments && db.deployments[n].project != p :: db.deployments[n];
      return Ok;
    }
  }
}
