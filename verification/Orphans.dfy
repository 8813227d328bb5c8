/** Containers that nobody names any more: which requests leave one behind, and which faults it takes. */
module Orphans {
  import opened Options
  import opened Docker
  import opened World
  import opened Requests
  import opened Lifecycle
  import Ports
  import C = Containers
  import D = Deployments
  import P = Projects
  import B = Databases

  /** Some row or database names the container. */
  ghost predicate Claimed(w: World, d: DockerId) {
    exists c :: Claims(w, c) && IdOf(w, c) == Some(d)
  }

  ghost predicate NoOrphans(w: World) {
    forall d | d in w.engine.containers :: Claimed(w, d)
  }

  /** A container that is new, or that a touched claimant named before. */
  ghost predicate Suspect(w: World, touched: set<Claimant>, d: DockerId) {
    d !in w.engine.containers || exists c :: c in touched && Claims(w, c) && IdOf(w, c) == Some(d)
  }

  /** The frame of every step: only suspects can have become orphans. */
  lemma OnlySuspects(w: World, w': World, touched: set<Claimant>)
    requires NoOrphans(w)
    requires forall c | c !in touched && Claims(w, c) :: Claims(w', c) && IdOf(w', c) == IdOf(w, c)
    ensures NoOrphans(w') <==> forall d | d in w'.engine.containers && Suspect(w, touched, d) :: Claimed(w', d)
  {
    forall d | d in w'.engine.containers && !Suspect(w, touched, d) ensures Claimed(w', d) {
      var c :| Claims(w, c) && IdOf(w, c) == Some(d);
      assert c !in touched;
      assert Claims(w', c) && IdOf(w', c) == Some(d);
    }
  }

  lemma OneUnclaimed(w: World, d: DockerId)
    requires d in w.engine.containers && !Claimed(w, d)
    ensures !NoOrphans(w)
  {
  }

  /** Ids that claimants kept are older than the one issued by the step. */
  lemma NewIsUnclaimed(w: World, w': World)
    requires w.Valid()
    requires forall c | Claims(w', c) :: Claims(w, c) && IdOf(w', c) == IdOf(w, c)
    ensures !Claimed(w', w.engine.next)
  {
    forall c | Claims(w', c) ensures IdOf(w', c) != Some(w.engine.next) {
      IdsBelowNext(w, c);
    }
  }

  // ------------------------------------------------------------ the requests

  predicate CreationMakes(w: World, user: UserId, p: ProjectId, dto: C.CreateDto, f: Faults) {
    && p in w.projects && w.projects[p].owner == user
    && C.ChosenPort(w, dto).Some? && !f.create && !w.engine.NameTaken(dto.name)
  }

  lemma CreateContainers(w: World, user: UserId, p: ProjectId, dto: C.CreateDto, f: Faults)
    ensures var w' := C.CreateSpec(w, user, p, dto, f).0;
      var made := CreationMakes(w, user, p, dto, f);
      && w'.databases == w.databases
      && w'.engine.containers.Keys == w.engine.containers.Keys + (if made then {w.engine.next} else {})
      && (if made && !f.inspect
          then w.nextRow in w'.rows && w'.rows == w.rows[w.nextRow := w'.rows[w.nextRow]]
               && w'.rows[w.nextRow].dockerId == Some(w.engine.next)
          else w'.rows == w.rows)
  {
    hide C.ChosenPort, C.DtoTag;
  }

  lemma CreateLeaves(w: World, user: UserId, p: ProjectId, dto: C.CreateDto, f: Faults)
    requires Coherent(w) && NoOrphans(w)
    ensures NoOrphans(C.CreateSpec(w, user, p, dto, f).0) <==> (CreationMakes(w, user, p, dto, f) ==> !f.inspect)
  {
    hide C.CreateSpec, CreationMakes;
    var w' := C.CreateSpec(w, user, p, dto, f).0;
    CreateContainers(w, user, p, dto, f);
    OnlySuspects(w, w', {});
    if CreationMakes(w, user, p, dto, f) {
      if f.inspect {
        NewIsUnclaimed(w, w');
        OneUnclaimed(w', w.engine.next);
      } else {
        assert Claims(w', OfRow(w.nextRow)) && IdOf(w', OfRow(w.nextRow)) == Some(w.engine.next);
      }
    }
  }

  /** Requests that make and remove no container, and leave every id where it is. */
  lemma SameContainersLeave(w: World, w': World)
    requires NoOrphans(w) && w'.engine.containers.Keys == w.engine.containers.Keys
    requires forall c | Claims(w, c) :: Claims(w', c) && IdOf(w', c) == IdOf(w, c)
    ensures NoOrphans(w')
  {
    OnlySuspects(w, w', {});
  }

  lemma StartLeaves(w: World, id: RowId, user: UserId, f: Faults)
    requires NoOrphans(w)
    ensures NoOrphans(C.StartSpec(w, id, user, f).0)
  {
    hide NoOrphans;
    SameContainersLeave(w, C.StartSpec(w, id, user, f).0);
  }

  lemma StopLeaves(w: World, id: RowId, user: UserId, f: Faults)
    requires NoOrphans(w)
    ensures NoOrphans(C.StopSpec(w, id, user, f).0)
  {
    hide NoOrphans;
    SameContainersLeave(w, C.StopSpec(w, id, user, f).0);
  }

  lemma PortsLeave(w: World, id: RowId, user: UserId, port: nat, ownFirst: bool, f: Faults)
    requires NoOrphans(w)
    ensures NoOrphans(C.AllocatePortSpec(w, id, user, port, ownFirst, f).0)
    ensures NoOrphans(C.RemovePortSpec(w, id, user).0)
  {
    hide NoOrphans, C.TakenByOther;
    SameContainersLeave(w, C.AllocatePortSpec(w, id, user, port, ownFirst, f).0);
    SameContainersLeave(w, C.RemovePortSpec(w, id, user).0);
  }

  lemma ProjectSwitchesLeave(w: World, p: ProjectId, f: Faults)
    requires NoOrphans(w)
    ensures NoOrphans(P.SuspendSpec(w, p, f).0) && NoOrphans(P.ResumeSpec(w, p, f).0)
  {
    hide NoOrphans;
    SameContainersLeave(w, P.SuspendSpec(w, p, f).0);
    SameContainersLeave(w, P.ResumeSpec(w, p, f).0);
  }

  predicate RestartIsTidy(w: World, id: RowId, user: UserId, f: Faults) {
    if Access(w, id, user, false) != Ok || w.rows[id].dockerId.None? || f.inspect || !C.Drifted(w, id) then true
    else
      var d := w.rows[id].dockerId.value;
      f.create || NameStaysTaken(w, id, d, f) || d !in f.remove
  }

  lemma SameClaimsLeave(w: World, w': World)
    requires w'.engine.containers.Keys == w.engine.containers.Keys
    requires forall c :: (Claims(w', c) <==> Claims(w, c)) && (Claims(w, c) ==> IdOf(w', c) == IdOf(w, c))
    ensures NoOrphans(w') <==> NoOrphans(w)
  {
    forall d: DockerId ensures Claimed(w', d) <==> Claimed(w, d) {
      if Claimed(w, d) {
        var c :| Claims(w, c) && IdOf(w, c) == Some(d);
        assert Claims(w', c) && IdOf(w', c) == Some(d);
      }
    }
  }

  lemma RestartContainerLeaves(w: World, id: RowId, d: DockerId, f: Faults)
    requires id in w.rows
    ensures NoOrphans(C.RestartContainerSpec(w, id, d, f).0) <==> NoOrphans(w)
  {
    hide NoOrphans;
    SameClaimsLeave(w, C.RestartContainerSpec(w, id, d, f).0);
  }

  /** The containers after a recreation, and who names what. */
  lemma RecreateContainers(w: World, id: RowId, d: DockerId, f: Faults)
    requires w.Valid() && id in w.rows && d in w.engine.containers
    ensures var made := !(f.create || NameStaysTaken(w, id, d, f));
      C.RecreateSpec(w, id, d, f).0.engine.containers.Keys
        == (if d in f.remove then w.engine.containers.Keys else w.engine.containers.Keys - {d})
           + (if made then {w.engine.next} else {})
  {
    hide C.TornDown, NameStaysTaken;
    TornDownEffect(w.engine, d, f);
    TornDownName(w, id, d, f);
    CreateEffect(C.TornDown(w.engine, d, f), C.RowSpec(w.rows[id]), f.create);
  }

  /** Row id took the new id, if `made`, and its old container d went or `stayed`; nothing else changed. */
  lemma RenewalLeaves(w: World, w': World, id: RowId, d: DockerId, made: bool, stayed: bool)
    requires Coherent(w) && NoOrphans(w) && id in w.rows && w.rows[id].dockerId == Some(d)
    requires forall c | c != OfRow(id) ::
        (Claims(w', c) <==> Claims(w, c)) && (Claims(w, c) ==> IdOf(w', c) == IdOf(w, c))
    requires id in w'.rows && w'.rows[id].dockerId == Some(if made then w.engine.next else d)
    requires made ==> w.engine.next in w'.engine.containers
    requires forall x | x in w'.engine.containers && x != d :: x in w.engine.containers || (made && x == w.engine.next)
    requires d in w'.engine.containers <==> stayed
    ensures NoOrphans(w') <==> !(made && stayed)
  {
    var me := OfRow(id);
    assert IdOf(w, me) == Some(d) && IdOf(w', me) == w'.rows[id].dockerId;
    OnlySuspects(w, w', {me});
    if made {
      assert Claimed(w', w.engine.next);
      IdsBelowNext(w, me);
      OldIsUnclaimed(w, w', me, d);
      assert Suspect(w, {me}, d);
    } else {
      assert Claimed(w', d);
    }
  }

  lemma RecreateLeaves(w: World, id: RowId, d: DockerId, f: Faults)
    requires Coherent(w) && NoOrphans(w) && id in w.rows && w.rows[id].dockerId == Some(d)
    ensures NoOrphans(C.RecreateSpec(w, id, d, f).0) <==> f.create || NameStaysTaken(w, id, d, f) || d !in f.remove
  {
    hide NameStaysTaken, NoOrphans, C.RecreateSpec;
    assert Agrees(w, OfRow(id));
    RecreateEffect(w, id, d, f);
    RecreateContainers(w, id, d, f);
    var made := !(f.create || NameStaysTaken(w, id, d, f));
    RenewalLeaves(w, C.RecreateSpec(w, id, d, f).0, id, d, made, d in f.remove);
  }

  /** When its one claimant takes another id, or goes, a container is left to nobody. */
  lemma OldIsUnclaimed(w: World, w': World, me: Claimant, d: DockerId)
    requires Coherent(w) && Claims(w, me) && IdOf(w, me) == Some(d)
    requires forall c | Claims(w', c) && c != me :: Claims(w, c) && IdOf(w', c) == IdOf(w, c)
    requires Claims(w', me) ==> IdOf(w', me) != Some(d)
    ensures !Claimed(w', d)
  {
    forall c | Claims(w', c) ensures IdOf(w', c) != Some(d) {
    }
  }

  lemma RestartLeaves(w: World, id: RowId, user: UserId, f: Faults)
    requires Coherent(w) && NoOrphans(w)
    ensures NoOrphans(C.RestartSpec(w, id, user, f).0) <==> RestartIsTidy(w, id, user, f)
  {
    hide NoOrphans, C.RestartContainerSpec, C.RecreateSpec, NameStaysTaken;
    if Access(w, id, user, false) == Ok && w.rows[id].dockerId.Some? && !f.inspect {
      var d := w.rows[id].dockerId.value;
      if C.Drifted(w, id) {
        RecreateLeaves(w, id, d, f);
        RecreateValid(w, id, d, f);
        var (w1, made) := C.RecreateSpec(w, id, d, f);
        if made.Some? {
          RestartContainerLeaves(w1, id, made.value, f);
        }
      } else {
        RestartContainerLeaves(w, id, d, f);
      }
    }
  }

  predicate RemovalIsTidy(w: World, id: RowId, user: UserId, f: Faults) {
    Access(w, id, user, false) == Ok && w.rows[id].dockerId.Some? ==> w.rows[id].dockerId.value !in f.remove
  }

  /** A claimant went, and its container d went or `stayed`; nothing else changed. */
  lemma RemovalLeaves(w: World, w': World, me: Claimant, d: DockerId, stayed: bool)
    requires Coherent(w) && NoOrphans(w) && Claims(w, me) && IdOf(w, me) == Some(d) && !Claims(w', me)
    requires forall c | c != me :: (Claims(w', c) <==> Claims(w, c)) && (Claims(w, c) ==> IdOf(w', c) == IdOf(w, c))
    requires w'.engine.containers.Keys == if stayed then w.engine.containers.Keys else w.engine.containers.Keys - {d}
    ensures NoOrphans(w') <==> !stayed
  {
    AgreesWith(w, me);
    OnlySuspects(w, w', {me});
    OldIsUnclaimed(w, w', me, d);
    assert Suspect(w, {me}, d);
  }

  lemma RemoveLeaves(w: World, id: RowId, user: UserId, f: Faults)
    requires Coherent(w) && NoOrphans(w)
    ensures NoOrphans(C.RemoveSpec(w, id, user, f).0) <==> RemovalIsTidy(w, id, user, f)
  {
    hide C.TornDown, NoOrphans, Coherent, World.Valid;
    if Access(w, id, user, false) == Ok {
      AgreesWith(w, OfRow(id));
      CoherentIsValid(w);
      EngineIsValid(w);
      var d := w.rows[id].dockerId.value;
      TornDownEffect(w.engine, d, f);
      RemovalLeaves(w, C.RemoveSpec(w, id, user, f).0, OfRow(id), d, d in f.remove);
    }
  }

  /** A rebuild makes its container, starts it if it must, and has got rid of the old one. */
  predicate RebuildIsTidy(w: World, id: RowId, d: DockerId, f: Faults)
    requires id in w.rows && d in w.engine.containers
  {
    var row := w.rows[id];
    f.create || (f.removeNamed && NameStaysTaken(w, id, d, f)) ||
    (!(row.status == RUNNING && w.engine.next in f.start)
     && (d !in f.remove || (!f.removeNamed && w.engine.containers[d].spec.name == row.name)))
  }

  lemma RebuildLeaves(w: World, id: RowId, d: DockerId, dto: C.ResourcesDto, f: Faults)
    requires Coherent(w) && NoOrphans(w) && id in w.rows && w.rows[id].dockerId == Some(d) && d in w.engine.containers
    ensures NoOrphans(C.RebuildSpec(w, id, d, dto, f).0) <==> RebuildIsTidy(w, id, d, f)
  {
    hide C.RebuildSpec, NameStaysTaken, NoOrphans;
    RebuildContainers(w, id, d, dto, f);
    var (w', ok) := C.RebuildSpec(w, id, d, dto, f);
    if ok || w.engine.next !in w'.engine.containers {
      RenewalLeaves(w, w', id, d, ok, d in w'.engine.containers);
    } else {
      NewIsUnclaimed(w, w');
      OneUnclaimed(w', w.engine.next);
    }
  }

  predicate UpdateIsTidy(w: World, id: RowId, user: UserId, dto: C.ResourcesDto, isAdmin: bool, f: Faults) {
    if Access(w, id, user, isAdmin) != Ok || w.rows[id].dockerId.None? || !AsksForAnother(w.rows[id], dto) then true
    else
      var d := w.rows[id].dockerId.value;
      (NamesVolume(dto) && f.volume) || (d in w.engine.containers ==> RebuildIsTidy(w, id, d, f))
  }

  lemma UpdateResourcesLeaves(w: World, id: RowId, user: UserId, dto: C.ResourcesDto, isAdmin: bool, f: Faults)
    requires Coherent(w) && NoOrphans(w)
    ensures NoOrphans(C.UpdateResourcesSpec(w, id, user, dto, isAdmin, f).0)
        <==> UpdateIsTidy(w, id, user, dto, isAdmin, f)
  {
    hide NoOrphans, Coherent, World.Valid, C.RebuildSpec, RebuildIsTidy;
    if Access(w, id, user, isAdmin) == Ok {
      CoherentIsValid(w);
      AgreesWith(w, OfRow(id));
      var d := w.rows[id].dockerId.value;
      SameClaimsLeave(w, C.EditRow(w, id, dto));
      if AsksForAnother(w.rows[id], dto) && !(NamesVolume(dto) && f.volume) {
        RebuildLeaves(w, id, d, dto, f);
        RebuildContainers(w, id, d, dto, f);
        var (w', ok) := C.RebuildSpec(w, id, d, dto, f);
        SameClaimsLeave(w', C.EditRow(w', id, dto));
      }
    }
  }

  // -------------------------------------------------- projects and databases

  /** A deployment gets as far as making its container. */
  predicate LaunchMakes(w: World, p: ProjectId, input: D.DeployInput, f: Faults)
    requires p in w.projects
  {
    && !f.prepare && !f.build && !f.create
    && Ports.FreeContainerPort(w.UsedByContainers()).Some?
    && !w.engine.NameTaken(D.StampedName(w.projects[p].name, input.dockerStamp))
  }

  /** A deployment that makes a container starts it, and gets rid of every old one. */
  predicate DeployIsTidy(w: World, user: UserId, p: ProjectId, input: D.DeployInput, f: Faults) {
    p in w.projects && w.projects[p].owner == user && LaunchMakes(w, p, input, f) ==>
      !f.inspect && w.engine.next !in f.start && D.Named(w.rows, w.RowsOf(p)) !! f.remove
  }

  lemma FailedLaunchContainers(w: World, user: UserId, p: ProjectId, input: D.DeployInput, f: Faults)
    requires w.Valid() && p in w.projects && w.projects[p].owner == user && !D.LaunchSucceeds(w, p, input, f)
    ensures var w' := D.DeploySpec(w, user, p, input, f).0;
      && w'.rows == w.rows && w'.databases == w.databases
      && w'.engine.containers.Keys
          == w.engine.containers.Keys + (if LaunchMakes(w, p, input, f) then {w.engine.next} else {})
  {
    D.LaunchEffect(D.Begun(w, p, input.kind), p, input, f);
    D.BegunLaunch(w, p, input, f);
  }

  /** The project lost its rows, and every container of theirs that is not in `failing`. */
  lemma GoneRowsLeave(w: World, w': World, p: ProjectId, failing: set<DockerId>, d: DockerId)
    requires Coherent(w) && NoOrphans(w) && d in w.engine.containers && d in w'.engine.containers
    requires w'.databases == w.databases
    requires forall r | r in w.rows && w.rows[r].project != p :: r in w'.rows && w'.rows[r] == w.rows[r]
    requires forall r | r in w'.rows && w'.rows[r].dockerId == Some(d) ::
        r in w.rows && w.rows[r].project != p && w'.rows[r] == w.rows[r]
    ensures Claimed(w', d) <==> d !in D.Named(w.rows, w.RowsOf(p))
  {
    var c :| Claims(w, c) && IdOf(w, c) == Some(d);
    if d in D.Named(w.rows, w.RowsOf(p)) {
      var r :| r in w.RowsOf(p) && w.rows[r].dockerId == Some(d);
      assert Claims(w, OfRow(r)) && c == OfRow(r);
      forall x | Claims(w', x) ensures IdOf(w', x) != Some(d) {
        if Claims(w, x) && x != c {
          assert IdOf(w, x) != Some(d);
        }
      }
    } else {
      assert Claims(w', c) && IdOf(w', c) == Some(d);
    }
  }

  /** A step that gives a project up: one new container, if any, which is named if it is there. */
  lemma ReplacedLeaves(w: World, w': World, p: ProjectId, failing: set<DockerId>, made: set<DockerId>)
    requires Coherent(w) && NoOrphans(w)
    requires w'.databases == w.databases
    requires forall r | r in w.rows && w.rows[r].project != p :: r in w'.rows && w'.rows[r] == w.rows[r]
    requires forall r | r in w'.rows && (r !in w.rows || w.rows[r].project == p) ::
        w'.rows[r].dockerId == Some(w.engine.next)
    requires forall r | r in w'.rows && r in w.rows && w.rows[r].project != p :: w'.rows[r] == w.rows[r]
    requires made <= {w.engine.next} && (made != {} ==> Claimed(w', w.engine.next))
    requires w'.engine.containers.Keys == w.engine.containers.Keys + made - (D.Named(w.rows, w.RowsOf(p)) - failing)
    ensures NoOrphans(w') <==> D.Named(w.rows, w.RowsOf(p)) !! failing
  {
    var named := D.Named(w.rows, w.RowsOf(p));
    forall d | d in w.engine.containers && d in w'.engine.containers ensures Claimed(w', d) <==> d !in named {
      GoneRowsLeave(w, w', p, failing, d);
    }
    if d :| d in named && d in failing {
      var r :| r in w.RowsOf(p) && w.rows[r].dockerId == Some(d);
      assert Agrees(w, OfRow(r));
      assert d in w'.engine.containers && !Claimed(w', d);
    }
  }

  lemma DeployLeaves(w: World, user: UserId, p: ProjectId, input: D.DeployInput, f: Faults)
    requires Coherent(w) && NoOrphans(w)
    ensures NoOrphans(D.DeploySpec(w, user, p, input, f).0) <==> DeployIsTidy(w, user, p, input, f)
  {
    hide D.LaunchSpec, D.CommitSpec, D.StampedName, D.Named, Ports.FreeContainerPort, NoOrphans;
    if p in w.projects && w.projects[p].owner == user {
      var w' := D.DeploySpec(w, user, p, input, f).0;
      if D.LaunchSucceeds(w, p, input, f) {
        D.LaunchedDeploymentReplaces(w, user, p, input, f);
        D.DeployEndsConsistently(w, user, p, input, f);
        assert Claims(w', OfRow(w.nextRow)) && IdOf(w', OfRow(w.nextRow)) == Some(w.engine.next);
        ReplacedLeaves(w, w', p, f.remove, {w.engine.next});
      } else {
        FailedLaunchContainers(w, user, p, input, f);
        if LaunchMakes(w, p, input, f) {
          NewIsUnclaimed(w, w');
          OneUnclaimed(w', w.engine.next);
        } else {
          SameClaimsLeave(w, w');
        }
      }
    }
  }

  predicate ProjectRemovalIsTidy(w: World, p: ProjectId, user: UserId, f: Faults) {
    p in w.projects && w.projects[p].owner == user ==> D.Named(w.rows, w.RowsOf(p)) !! f.remove
  }

  lemma RemoveProjectLeaves(w: World, p: ProjectId, user: UserId, f: Faults)
    requires Coherent(w) && NoOrphans(w)
    ensures NoOrphans(P.RemoveSpec(w, p, user, f).0) <==> ProjectRemovalIsTidy(w, p, user, f)
  {
    hide NoOrphans;
    if p in w.projects && w.projects[p].owner == user {
      assert P.LoopRows(w, p, false) == w.RowsOf(p);
      ReplacedLeaves(w, P.RemoveSpec(w, p, user, f).0, p, f.remove, {});
    }
  }

  /** A database request gets as far as making its container. */
  predicate ProvisionMakes(w: World, dto: B.CreateDto, f: Faults) {
    && !f.volume && !f.build && !f.create && (dto.kind == B.POSTGRESQL || dto.kind == B.MYSQL)
    && !w.engine.NameTaken(B.NewSpec(dto, w.nextDatabase, 0).name)
  }

  lemma DatabaseName(dto: B.CreateDto, b: DatabaseId, port: nat)
    ensures B.NewSpec(dto, b, port).name == B.NewSpec(dto, b, 0).name
  {
  }

  lemma ProvisionContainers(w: World, b: DatabaseId, dto: B.CreateDto, f: Faults)
    requires b in w.databases
    ensures var (w', ok) := B.ProvisionSpec(w, b, dto, f);
      var made := !f.volume && !f.build && !f.create && (dto.kind == B.POSTGRESQL || dto.kind == B.MYSQL)
                  && !w.engine.NameTaken(B.NewSpec(dto, b, 0).name);
      && w'.rows == w.rows
      && (ok <==> made && !f.inspect && w.engine.next !in f.start)
      && w'.engine.containers.Keys == w.engine.containers.Keys + (if made then {w.engine.next} else {})
      && w'.databases == (if ok then w.databases[b := w'.databases[b]] else w.databases)
      && (ok ==> b in w'.databases && w'.databases[b].dockerId == Some(w.engine.next))
  {
    hide Ports.FreeDatabasePort, B.NewSpec, B.UsedPorts;
    DatabaseName(dto, b, Ports.FreeDatabasePort(B.UsedPorts(w)));
  }

  lemma CreateDatabaseContainers(w: World, user: UserId, dto: B.CreateDto, f: Faults)
    requires w.Valid()
    ensures var (w', r) := B.CreateSpec(w, user, dto, f);
      && w'.rows == w.rows
      && (r == Ok <==> ProvisionMakes(w, dto, f) && !f.inspect && w.engine.next !in f.start)
      && (r == Ok ==> w.nextDatabase in w'.databases && w'.databases[w.nextDatabase].dockerId == Some(w.engine.next))
      && (forall b | b in w'.databases && b != w.nextDatabase :: b in w.databases)
      && (r != Ok ==> w'.databases == w.databases)
      && (forall b | b in w.databases :: b in w'.databases && w'.databases[b] == w.databases[b])
      && w'.engine.containers.Keys
          == w.engine.containers.Keys + (if ProvisionMakes(w, dto, f) then {w.engine.next} else {})
  {
    hide B.ProvisionSpec, B.NewSpec;
    var placed := B.WithPlaceholder(w, user, dto.kind);
    ProvisionContainers(placed, w.nextDatabase, dto, f);
    assert placed.databases - {w.nextDatabase} == w.databases;
  }

  lemma CreateDatabaseLeaves(w: World, user: UserId, dto: B.CreateDto, f: Faults)
    requires Coherent(w) && NoOrphans(w)
    ensures NoOrphans(B.CreateSpec(w, user, dto, f).0)
      <==> (ProvisionMakes(w, dto, f) ==> !f.inspect && w.engine.next !in f.start)
  {
    hide B.CreateSpec, ProvisionMakes;
    CreateDatabaseContainers(w, user, dto, f);
    var (w', r) := B.CreateSpec(w, user, dto, f);
    OnlySuspects(w, w', {});
    if r == Ok {
      assert Claims(w', OfDatabase(w.nextDatabase)) && IdOf(w', OfDatabase(w.nextDatabase)) == Some(w.engine.next);
    } else if ProvisionMakes(w, dto, f) {
      NewIsUnclaimed(w, w');
      OneUnclaimed(w', w.engine.next);
    }
  }

  predicate DatabaseRemovalIsTidy(w: World, b: DatabaseId, user: UserId, f: Faults) {
    b in w.databases && w.databases[b].owner == user && w.databases[b].dockerId.Some? ==>
      w.databases[b].dockerId.value !in f.remove
  }

  lemma RemoveDatabaseLeaves(w: World, b: DatabaseId, user: UserId, f: Faults)
    requires Coherent(w) && NoOrphans(w)
    ensures NoOrphans(B.RemoveSpec(w, b, user, f).0) <==> DatabaseRemovalIsTidy(w, b, user, f)
  {
    hide NoOrphans, Coherent, World.Valid;
    if b in w.databases && w.databases[b].owner == user {
      AgreesWith(w, OfDatabase(b));
      var d := w.databases[b].dockerId.value;
      RemovalLeaves(w, B.RemoveSpec(w, b, user, f).0, OfDatabase(b), d, d in f.remove);
    }
  }

  // ------------------------------------------------------------ main results

  /** Which requests leave no container behind; all those not listed never do. */
  ghost predicate Tidy(w: World, req: Request, f: Faults)
    requires Coherent(w)
  {
    match req
    case CreateContainer(user, project, dto) => CreationMakes(w, user, project, dto, f) ==> !f.inspect
    case RestartContainer(id, user) => RestartIsTidy(w, id, user, f)
    case RemoveContainer(id, user) => RemovalIsTidy(w, id, user, f)
    case UpdateResources(id, user, dto, isAdmin) => UpdateIsTidy(w, id, user, dto, isAdmin, f)
    case Deploy(user, project, input) => DeployIsTidy(w, user, project, input, f)
    case RemoveProject(project, user) => ProjectRemovalIsTidy(w, project, user, f)
    case CreateDatabase(user, dto) => ProvisionMakes(w, dto, f) ==> !f.inspect && w.engine.next !in f.start
    case RemoveDatabase(b, user) => DatabaseRemovalIsTidy(w, b, user, f)
    case _ => true
  }

  /** One step, under any faults: from a world without orphans, none is made exactly by the tidy requests. */
  lemma StepLeavesNoOrphanExactlyWhenTidy(w: World, req: Request, f: Faults)
    requires Coherent(w) && NoOrphans(w)
    ensures NoOrphans(Apply(w, req, f).0) <==> Tidy(w, req, f)
  {
    hide NoOrphans, Coherent, CreationMakes, RestartIsTidy, RemovalIsTidy, UpdateIsTidy, DeployIsTidy;
    hide ProjectRemovalIsTidy, ProvisionMakes, DatabaseRemovalIsTidy;
    hide C.CreateSpec, C.StartSpec, C.StopSpec, C.RestartSpec, C.RemoveSpec, C.UpdateResourcesSpec, C.AllocatePortSpec;
    hide C.RemovePortSpec, D.DeploySpec, P.SuspendSpec, P.ResumeSpec, P.RemoveSpec, B.CreateSpec, B.RemoveSpec;
    match req
    case CreateContainer(user, project, dto) => CreateLeaves(w, user, project, dto, f);
    case StartContainer(id, user) => StartLeaves(w, id, user, f);
    case StopContainer(id, user) => StopLeaves(w, id, user, f);
    case RestartContainer(id, user) => RestartLeaves(w, id, user, f);
    case RemoveContainer(id, user) => RemoveLeaves(w, id, user, f);
    case UpdateResources(id, user, dto, isAdmin) => UpdateResourcesLeaves(w, id, user, dto, isAdmin, f);
    case AllocatePort(id, user, port, ownFirst) => PortsLeave(w, id, user, port, ownFirst, f);
    case RemovePort(id, user) => PortsLeave(w, id, user, 0, false, f);
    case Deploy(user, project, input) => DeployLeaves(w, user, project, input, f);
    case Suspend(project) => ProjectSwitchesLeave(w, project, f);
    case Resume(project) => ProjectSwitchesLeave(w, project, f);
    case RemoveProject(project, user) => RemoveProjectLeaves(w, project, user, f);
    case CreateDatabase(user, dto) => CreateDatabaseLeaves(w, user, dto, f);
    case RemoveDatabase(b, user) => RemoveDatabaseLeaves(w, b, user, f);
  }

  /** Rows and containers match one to one: every row agrees with its own container, and no container is left over. */
  ghost predicate Matched(w: World) {
    Coherent(w) && NoOrphans(w)
  }

  /** Each request of the run is safe and tidy in the world it meets. */
  ghost predicate SafeTidyRun(w: World, steps: seq<(Request, Faults)>)
    requires Matched(w)
    decreases |steps|
  {
    steps == [] ||
    (Safe(w, steps[0].0, steps[0].1) && Tidy(w, steps[0].0, steps[0].1) &&
      (StepKeepsExactlyWhenSafe(w, steps[0].0, steps[0].1);
       StepLeavesNoOrphanExactlyWhenTidy(w, steps[0].0, steps[0].1);
       SafeTidyRun(Apply(w, steps[0].0, steps[0].1).0, steps[1..])))
  }

  /**
   Over whole runs: rows and containers match one to one after every request exactly when
   every request was safe and tidy.
   */
  lemma {:induction false} RunStaysMatchedExactlyWhenSafeAndTidy(w: World, steps: seq<(Request, Faults)>)
    requires Matched(w)
    ensures SafeTidyRun(w, steps) <==> forall k | 0 <= k <= |steps| :: Matched(Run(w, steps[..k]))
    decreases |steps|
  {
    hide Matched, Apply, Safe, Tidy;
    if steps != [] {
      var (req, f) := steps[0];
      var w' := Apply(w, req, f).0;
      StepStaysMatched(w, req, f);
      forall k | 0 < k <= |steps| ensures Run(w, steps[..k]) == Run(w', steps[1..][..k - 1]) {
        assert steps[..k][1..] == steps[1..][..k - 1];
      }
      if Matched(w') {
        RunStaysMatchedExactlyWhenSafeAndTidy(w', steps[1..]);
        if SafeTidyRun(w', steps[1..]) {
          forall k | 0 <= k <= |steps| ensures Matched(Run(w, steps[..k])) {
            assert k > 0 ==> Matched(Run(w', steps[1..][..k - 1]));
          }
        } else {
          var j :| 0 <= j <= |steps[1..]| && !Matched(Run(w', steps[1..][..j]));
          assert !Matched(Run(w, steps[..j + 1]));
        }
      } else {
        assert Run(w', steps[1..][..0]) == w';
        assert !Matched(Run(w, steps[..1]));
      }
    }
  }

  lemma StepStaysMatched(w: World, req: Request, f: Faults)
    requires Matched(w)
    ensures Coherent(w)
    ensures Matched(Apply(w, req, f).0) <==> Safe(w, req, f) && Tidy(w, req, f)
  {
    hide Coherent, NoOrphans, Apply, Safe, Tidy;
    StepKeepsExactlyWhenSafe(w, req, f);
    StepLeavesNoOrphanExactlyWhenTidy(w, req, f);
  }

  /** No request leaves a container behind unless some call fails. */
  lemma FaultFreeRequestsAreTidy(w: World, req: Request)
    requires Coherent(w)
    ensures Tidy(w, req, NO_FAULTS)
  {
  }

  /**
   Over whole runs: as long as no call fails and no names clash, rows and containers match
   one to one after every request.
   */
  lemma {:induction false} FaultFreeRunsStayMatched(w: World, steps: seq<(Request, Faults)>)
    requires Matched(w) && NamesStayApart(w, steps) && forall s | s in steps :: s.1 == NO_FAULTS
    ensures forall k | 0 <= k <= |steps| :: Matched(Run(w, steps[..k]))
    decreases |steps|
  {
    hide Matched, Apply, Safe, Tidy, NamesApart;
    if steps == [] {
      assert steps[..0] == [];
    } else {
      assert steps[0] in steps && forall s | s in steps[1..] :: s in steps;
      var w' := Apply(w, steps[0].0, NO_FAULTS).0;
      StepStaysMatched(w, steps[0].0, NO_FAULTS);
      FaultFreeRequestsAreSafe(w, steps[0].0);
      FaultFreeRequestsAreTidy(w, steps[0].0);
      FaultFreeRunsStayMatched(w', steps[1..]);
      forall k | 0 <= k <= |steps| ensures Matched(Run(w, steps[..k])) {
        if k > 0 {
          assert steps[..k][1..] == steps[1..][..k - 1];
          assert Run(w, steps[..k]) == Run(w', steps[1..][..k - 1]);
        }
      }
    }
  }
}
