/**
 All requests as steps of one state machine, and the agreement between the
 database and the engine over its runs.
 */
module Lifecycle {
  import opened Options
  import opened Docker
  import opened World
  import opened Requests
  import Ports
  import C = Containers
  import D = Deployments
  import P = Projects
  import B = Databases

  // -------------------------------------------------------------- coherence

  /** Whoever names a container in the database. */
  datatype Claimant = OfRow(r: RowId) | OfDatabase(b: DatabaseId)

  predicate Claims(w: World, c: Claimant) {
    match c
    case OfRow(r) => r in w.rows
    case OfDatabase(b) => b in w.databases
  }

  function IdOf(w: World, c: Claimant): Option<DockerId>
    requires Claims(w, c)
  {
    match c
    case OfRow(r) => w.rows[r].dockerId
    case OfDatabase(b) => w.databases[b].dockerId
  }

  function StatusOf(w: World, c: Claimant): ContainerStatus
    requires Claims(w, c)
  {
    match c
    case OfRow(r) => w.rows[r].status
    case OfDatabase(b) => w.databases[b].status
  }

  /** The row names a container that is present, and says RUNNING exactly when it runs. */
  predicate Agrees(w: World, c: Claimant)
    requires Claims(w, c)
  {
    var id := IdOf(w, c);
    && id.Some? && id.value in w.engine.containers
    && (StatusOf(w, c) == RUNNING <==> w.engine.containers[id.value].running)
  }

  /** Every row agrees with the engine, and no two rows name the same container. */
  ghost predicate Coherent(w: World) {
    && w.Valid()
    && (forall c | Claims(w, c) :: Agrees(w, c))
    && (forall a, b | Claims(w, a) && Claims(w, b) && a != b :: IdOf(w, a) != IdOf(w, b))
  }

  /** What claimant c sees is the same in both worlds. */
  ghost predicate Undisturbed(w: World, w': World, c: Claimant) {
    && (Claims(w', c) <==> Claims(w, c))
    && (Claims(w, c) ==>
          && IdOf(w', c) == IdOf(w, c) && StatusOf(w', c) == StatusOf(w, c)
          && (IdOf(w, c).Some? && IdOf(w, c).value in w.engine.containers ==>
                && IdOf(w, c).value in w'.engine.containers
                && w'.engine.containers[IdOf(w, c).value] == w.engine.containers[IdOf(w, c).value]))
  }

  /** The claimant keeps its container id or takes one issued by this step. */
  ghost predicate KeepsOrRenews(w: World, w': World, c: Claimant)
    requires Claims(w', c)
  {
    || (Claims(w, c) && IdOf(w', c) == IdOf(w, c))
    || IdOf(w', c) == Some(w.engine.next)
  }

  /**
   The frame of every step: if at most the claimants in `touched` are disturbed,
   and at most one of them is given the new id, then the new world is coherent
   exactly when the touched claimants agree with it.
   */
  lemma StepCoherent(w: World, w': World, touched: set<Claimant>)
    requires Coherent(w) && w'.Valid()
    requires forall c :: c !in touched ==> Undisturbed(w, w', c)
    requires forall c | c in touched && Claims(w', c) :: KeepsOrRenews(w, w', c)
    requires forall a, b | a in touched && b in touched && Claims(w', a) && Claims(w', b)
                           && IdOf(w', a) == Some(w.engine.next) && IdOf(w', b) == Some(w.engine.next) :: a == b
    ensures Coherent(w') <==> forall c | c in touched && Claims(w', c) :: Agrees(w', c)
  {
    if forall c | c in touched && Claims(w', c) :: Agrees(w', c) {
      forall c | Claims(w', c) ensures Agrees(w', c) {
        if c !in touched { assert Undisturbed(w, w', c); assert Agrees(w, c); }
      }
      forall a, b | Claims(w', a) && Claims(w', b) && a != b ensures IdOf(w', a) != IdOf(w', b) {
        IdsBelowNext(w, a);
        IdsBelowNext(w, b);
        if a !in touched { assert Undisturbed(w, w', a); } else { assert KeepsOrRenews(w, w', a); }
        if b !in touched { assert Undisturbed(w, w', b); } else { assert KeepsOrRenews(w, w', b); }
      }
    }
  }

  lemma IdsBelowNext(w: World, c: Claimant)
    requires w.Valid()
    ensures Claims(w, c) && IdOf(w, c).Some? ==> IdOf(w, c).value < w.engine.next
  {
  }

  // ----------------------------------------------- requests on one container

  lemma CreateDisturbsNoOther(w: World, user: UserId, p: ProjectId, dto: C.CreateDto, f: Faults)
    requires w.Valid()
    ensures forall c | c != OfRow(w.nextRow) :: Undisturbed(w, C.CreateSpec(w, user, p, dto, f).0, c)
  {
    hide C.ChosenPort, C.DtoTag, World.Valid;
    NextIsNew(w);
  }

  lemma CreateKeeps(w: World, user: UserId, p: ProjectId, dto: C.CreateDto, f: Faults)
    requires Coherent(w)
    ensures Coherent(C.CreateSpec(w, user, p, dto, f).0)
  {
    var w' := C.CreateSpec(w, user, p, dto, f).0;
    CreateValid(w, user, p, dto, f);
    CreateDisturbsNoOther(w, user, p, dto, f);
    StepCoherent(w, w', {OfRow(w.nextRow)});
  }

  /** A step that touches claimant `me` and at most the container d it names disturbs nobody else. */
  lemma OthersUndisturbed(w: World, w': World, me: Claimant, d: DockerId)
    requires Coherent(w) && Claims(w, me) && IdOf(w, me) == Some(d)
    requires forall c | c != me ::
        && (Claims(w', c) <==> Claims(w, c))
        && (Claims(w, c) ==> IdOf(w', c) == IdOf(w, c) && StatusOf(w', c) == StatusOf(w, c))
    requires forall x | x in w.engine.containers && x != d ::
        x in w'.engine.containers && w'.engine.containers[x] == w.engine.containers[x]
    ensures forall c | c != me :: Undisturbed(w, w', c)
  {
    forall c | c != me && Claims(w, c) ensures IdOf(w, c) != IdOf(w, me) {
    }
  }

  lemma AgreesWith(w: World, c: Claimant)
    requires Coherent(w) && Claims(w, c)
    ensures Agrees(w, c)
  {
  }

  lemma StartKeeps(w: World, id: RowId, user: UserId, f: Faults)
    requires Coherent(w)
    ensures Coherent(C.StartSpec(w, id, user, f).0)
  {
    hide Coherent, Undisturbed, World.Valid;
    var me, w' := OfRow(id), C.StartSpec(w, id, user, f).0;
    if w' != w {
      AgreesWith(w, me);
      CoherentIsValid(w);
      StartValid(w, id, user, f);
      OthersUndisturbed(w, w', me, w.rows[id].dockerId.value);
      StepCoherent(w, w', {me});
    }
  }

  lemma CoherentIsValid(w: World)
    requires Coherent(w)
    ensures w.Valid()
  {
  }

  lemma StopKeeps(w: World, id: RowId, user: UserId, f: Faults)
    requires Coherent(w)
    ensures Coherent(C.StopSpec(w, id, user, f).0)
  {
    hide Coherent, Undisturbed, World.Valid;
    var me, w' := OfRow(id), C.StopSpec(w, id, user, f).0;
    if w' != w {
      AgreesWith(w, me);
      CoherentIsValid(w);
      StopValid(w, id, user, f);
      OthersUndisturbed(w, w', me, w.rows[id].dockerId.value);
      StepCoherent(w, w', {me});
    }
  }

  lemma RemoveKeeps(w: World, id: RowId, user: UserId, f: Faults)
    requires Coherent(w)
    ensures Coherent(C.RemoveSpec(w, id, user, f).0)
  {
    hide Coherent, Undisturbed, World.Valid, C.TornDown;
    var me, w' := OfRow(id), C.RemoveSpec(w, id, user, f).0;
    if Access(w, id, user, false) == Ok {
      AgreesWith(w, me);
      CoherentIsValid(w);
      RemoveValid(w, id, user, f);
      TornDownLeavesOthers(w.engine, w.rows[id].dockerId.value, f);
      OthersUndisturbed(w, w', me, w.rows[id].dockerId.value);
      StepCoherent(w, w', {me});
    }
  }

  /** Moving the row's port away from the container's binding does not disturb the agreement. */
  lemma AllocatePortKeeps(w: World, id: RowId, user: UserId, port: nat, ownFirst: bool, f: Faults)
    requires Coherent(w)
    ensures Coherent(C.AllocatePortSpec(w, id, user, port, ownFirst, f).0)
  {
    var w' := C.AllocatePortSpec(w, id, user, port, ownFirst, f).0;
    forall c ensures Undisturbed(w, w', c) {
    }
    StepCoherent(w, w', {});
  }

  lemma RemovePortKeeps(w: World, id: RowId, user: UserId)
    requires Coherent(w)
    ensures Coherent(C.RemovePortSpec(w, id, user).0)
  {
    var w' := C.RemovePortSpec(w, id, user).0;
    forall c ensures Undisturbed(w, w', c) {
    }
    StepCoherent(w, w', {});
  }

  // ----------------------------------------------------------------- restart

  /** After the attempt to remove container d the row's name is still taken: by another container, or by d itself. */
  predicate NameStaysTaken(w: World, id: RowId, d: DockerId, f: Faults)
    requires id in w.rows
  {
    exists c | c in w.engine.containers ::
      w.engine.containers[c].spec.name == w.rows[id].name && (c == d ==> d in f.remove)
  }

  lemma TornDownName(w: World, id: RowId, d: DockerId, f: Faults)
    requires w.engine.Valid() && id in w.rows && d in w.engine.containers
    ensures C.TornDown(w.engine, d, f).NameTaken(w.rows[id].name) <==> NameStaysTaken(w, id, d, f)
  {
    hide C.TornDown;
    TornDownEffect(w.engine, d, f);
    var torn := C.TornDown(w.engine, d, f);
    if c :|
      && c in w.engine.containers && w.engine.containers[c].spec.name == w.rows[id].name
      && (c == d ==> d in f.remove)
    {
      assert c in torn.containers && torn.containers[c].spec.name == w.rows[id].name;
    }
  }

  lemma ClearedName(w: World, id: RowId, d: DockerId, f: Faults)
    requires w.engine.Valid() && id in w.rows && d in w.engine.containers
    ensures C.Cleared(w.engine, w.rows[id], d, f).NameTaken(w.rows[id].name)
      <==> f.removeNamed && NameStaysTaken(w, id, d, f)
  {
    hide C.TornDown;
    TornDownName(w, id, d, f);
  }

  /**
   A restart keeps the agreement exactly when: the container need not be
   recreated; or the recreation goes through and, for a row that says RUNNING,
   so do the Nginx write and the final restart; or no new container can be made
   but the old one has survived in its old state.
   */
  predicate RestartIsSafe(w: World, id: RowId, user: UserId, f: Faults) {
    if Access(w, id, user, false) != Ok || w.rows[id].dockerId.None? || f.inspect || !C.Drifted(w, id) then true
    else
      var row := w.rows[id];
      var d := row.dockerId.value;
      if f.create || NameStaysTaken(w, id, d, f) then d in f.remove && (row.status == RUNNING ==> d in f.stop)
      else row.status == RUNNING ==> !f.restart && !(Routed(w, row) && f.nginx)
  }

  lemma NextIsNew(w: World)
    requires w.Valid()
    ensures w.engine.next !in w.engine.containers
  {
  }

  lemma RecreateEffect(w: World, id: RowId, d: DockerId, f: Faults)
    requires Coherent(w) && id in w.rows && w.rows[id].dockerId == Some(d)
    ensures var (w', made) := C.RecreateSpec(w, id, d, f);
      var row := w.rows[id];
      && w' == w.(rows := w'.rows, engine := w'.engine)
      && (if f.create || NameStaysTaken(w, id, d, f) then
            && made.None? && w'.rows == w.rows
            && (d in w'.engine.containers <==> d in f.remove)
            && (d in w'.engine.containers ==>
                  (w'.engine.containers[d].running <==> w.engine.containers[d].running && d in f.stop))
          else
            && w'.rows == w.rows[id := row.(dockerId := Some(w.engine.next))]
            && w.engine.next in w'.engine.containers && !w'.engine.containers[w.engine.next].running
            && made == (if Routed(w, row) && f.nginx then None else Some(w.engine.next)))
  {
    hide C.TornDown, NameStaysTaken;
    assert Agrees(w, OfRow(id));
    TornDownEffect(w.engine, d, f);
    TornDownName(w, id, d, f);
    CreateEffect(C.TornDown(w.engine, d, f), C.RowSpec(w.rows[id]), f.create);
  }

  lemma RecreateLeavesOthers(w: World, id: RowId, d: DockerId, f: Faults)
    requires id in w.rows && w.engine.next !in w.engine.containers
    ensures var e := C.RecreateSpec(w, id, d, f).0.engine;
      forall x | x in w.engine.containers && x != d :: x in e.containers && e.containers[x] == w.engine.containers[x]
  {
    hide C.TornDown, C.RowSpec;
    TornDownLeavesOthers(w.engine, d, f);
  }

  lemma RecreateDisturbsNoOther(w: World, id: RowId, d: DockerId, f: Faults)
    requires Coherent(w) && id in w.rows && w.rows[id].dockerId == Some(d)
    ensures var w' := C.RecreateSpec(w, id, d, f).0;
      w'.Valid() && forall c | c != OfRow(id) :: Undisturbed(w, w', c)
  {
    hide Coherent, Undisturbed, World.Valid, C.RecreateSpec, NameStaysTaken;
    CoherentIsValid(w);
    NextIsNew(w);
    RecreateValid(w, id, d, f);
    RecreateEffect(w, id, d, f);
    RecreateLeavesOthers(w, id, d, f);
    OthersUndisturbed(w, C.RecreateSpec(w, id, d, f).0, OfRow(id), d);
  }

  lemma PlainRestartKeeps(w: World, id: RowId, d: DockerId, f: Faults)
    requires Coherent(w) && id in w.rows && w.rows[id].dockerId == Some(d)
    ensures Coherent(C.RestartContainerSpec(w, id, d, f).0)
  {
    hide Coherent, Undisturbed, World.Valid, C.RestartContainerSpec;
    var me, w' := OfRow(id), C.RestartContainerSpec(w, id, d, f).0;
    AgreesWith(w, me);
    CoherentIsValid(w);
    RestartContainerEffect(w, id, d, f);
    if w' != w {
      OthersUndisturbed(w, w', me, d);
      StepCoherent(w, w', {me});
    }
  }

  /** The world after recreating, seen from the world before: what a following restart call adds. */
  lemma RecreatedRestartKeeps(w: World, id: RowId, d: DockerId, f: Faults)
    requires Coherent(w) && id in w.rows && w.rows[id].dockerId == Some(d)
    requires C.RecreateSpec(w, id, d, f).1.Some?
    ensures var (w1, made) := C.RecreateSpec(w, id, d, f);
      Coherent(C.RestartContainerSpec(w1, id, made.value, f).0) <==> (w.rows[id].status == RUNNING ==> !f.restart)
  {
    hide Coherent, World.Valid, C.RecreateSpec, C.RestartContainerSpec, NameStaysTaken;
    var me := OfRow(id);
    CoherentIsValid(w);
    RecreateEffect(w, id, d, f);
    RecreateDisturbsNoOther(w, id, d, f);
    var (w1, made) := C.RecreateSpec(w, id, d, f);
    RestartContainerEffect(w1, id, made.value, f);
    var w' := C.RestartContainerSpec(w1, id, made.value, f).0;
    forall c | c != me ensures Undisturbed(w, w', c) {
      assert Undisturbed(w, w1, c);
      IdsBelowNext(w, c);
    }
    StepCoherent(w, w', {me});
    assert Coherent(w') <==> Agrees(w', me);
  }

  lemma FailedRecreationKeeps(w: World, id: RowId, d: DockerId, f: Faults)
    requires Coherent(w) && id in w.rows && w.rows[id].dockerId == Some(d)
    requires C.RecreateSpec(w, id, d, f).1.None?
    ensures var row := w.rows[id];
      Coherent(C.RecreateSpec(w, id, d, f).0) <==>
        if f.create || NameStaysTaken(w, id, d, f)
        then d in f.remove && (row.status == RUNNING ==> d in f.stop)
        else row.status != RUNNING
  {
    hide Coherent, C.RecreateSpec, NameStaysTaken, Undisturbed;
    var me := OfRow(id);
    AgreesWith(w, me);
    RecreateEffect(w, id, d, f);
    RecreateDisturbsNoOther(w, id, d, f);
    var w' := C.RecreateSpec(w, id, d, f).0;
    StepCoherent(w, w', {me});
    assert Coherent(w') <==> Agrees(w', me);
  }

  lemma RestartKeeps(w: World, id: RowId, user: UserId, f: Faults)
    requires Coherent(w)
    ensures Coherent(C.RestartSpec(w, id, user, f).0) <==> RestartIsSafe(w, id, user, f)
  {
    if Access(w, id, user, false) == Ok && w.rows[id].dockerId.Some? && !f.inspect {
      var d := w.rows[id].dockerId.value;
      if !C.Drifted(w, id) {
        PlainRestartKeeps(w, id, d, f);
      } else {
        RecreateEffect(w, id, d, f);
        if C.RecreateSpec(w, id, d, f).1.None? {
          FailedRecreationKeeps(w, id, d, f);
        } else {
          RecreatedRestartKeeps(w, id, d, f);
        }
      }
    }
  }

  // --------------------------------------------------------- updateResources

  /** The removal by name meets no container that another row names. */
  ghost predicate NameSpares(w: World, id: RowId)
    requires Coherent(w) && id in w.rows
  {
    forall c | Claims(w, c) && c != OfRow(id) ::
      Agrees(w, c) && w.engine.containers[IdOf(w, c).value].spec.name != w.rows[id].name
  }

  /** The old container outlives the three removal attempts, still in its old state. */
  predicate Survives(w: World, id: RowId, d: DockerId, f: Faults)
    requires id in w.rows && d in w.engine.containers
  {
    && d in f.remove
    && (f.removeNamed || w.engine.containers[d].spec.name != w.rows[id].name)
    && (w.rows[id].status == RUNNING ==> d in f.stop)
  }

  /**
   A rebuild keeps the agreement exactly when the removal by name hits nobody
   else and either the new container is made (and started, for a row that says
   RUNNING) or the old one survives.
   */
  ghost predicate RebuildIsSafe(w: World, id: RowId, d: DockerId, f: Faults)
    requires Coherent(w) && id in w.rows && d in w.engine.containers
  {
    && (f.removeNamed || NameSpares(w, id))
    && (f.create || (f.removeNamed && NameStaysTaken(w, id, d, f))
        || (w.rows[id].status == RUNNING && w.engine.next in f.start)
        ==> Survives(w, id, d, f))
  }

  /** Who is named by whom after a rebuild, and which containers there are. */
  lemma RebuildContainers(w: World, id: RowId, d: DockerId, dto: C.ResourcesDto, f: Faults)
    requires w.Valid() && id in w.rows && w.rows[id].dockerId == Some(d) && d in w.engine.containers
    ensures var (w', ok) := C.RebuildSpec(w, id, d, dto, f);
      var row := w.rows[id];
      var made := !(f.create || (f.removeNamed && NameStaysTaken(w, id, d, f)));
      && (ok <==> made && !(row.status == RUNNING && w.engine.next in f.start))
      && w'.databases == w.databases
      && w'.rows == (if ok then w.rows[id := row.(dockerId := Some(w.engine.next))] else w.rows)
      && (w.engine.next in w'.engine.containers <==> made)
      && (forall x | x in w'.engine.containers && x != w.engine.next :: x in w.engine.containers)
      && (forall x | x in w.engine.containers && x != d ::
            if f.removeNamed || w.engine.containers[x].spec.name != row.name
            then x in w'.engine.containers && w'.engine.containers[x] == w.engine.containers[x]
            else x !in w'.engine.containers)
      && (d in w'.engine.containers
          <==> d in f.remove && (f.removeNamed || w.engine.containers[d].spec.name != row.name))
  {
    hide C.RemadeSpec, C.RebuiltSpec, C.Cleared, NameStaysTaken;
    ClearedEffect(w.engine, w.rows[id], d, f);
    ClearedName(w, id, d, f);
    RemadeCases(w.(engine := C.Cleared(w.engine, w.rows[id], d, f)), id, dto, f);
  }

  /** Another claimant is disturbed exactly when its container holds the row's name and is removed by it. */
  lemma RebuildSeenByOthers(w: World, id: RowId, d: DockerId, dto: C.ResourcesDto, f: Faults, c: Claimant)
    requires Coherent(w) && id in w.rows && w.rows[id].dockerId == Some(d)
    requires c != OfRow(id)
    ensures var w' := C.RebuildSpec(w, id, d, dto, f).0;
      && (Claims(w', c) <==> Claims(w, c))
      && (Claims(w, c) ==>
            && Agrees(w, c) && IdOf(w', c) == IdOf(w, c) && StatusOf(w', c) == StatusOf(w, c)
            && (if f.removeNamed || w.engine.containers[IdOf(w, c).value].spec.name != w.rows[id].name
                then Undisturbed(w, w', c) else !Agrees(w', c)))
  {
    hide C.RebuildSpec, NameStaysTaken;
    assert Agrees(w, OfRow(id));
    assert Claims(w, c) ==> Agrees(w, c) && IdOf(w, c) != IdOf(w, OfRow(id));
    RebuildContainers(w, id, d, dto, f);
  }

  /** What making the new container leaves of the row itself. */
  lemma RemadeSeenByRow(w: World, id: RowId, d: DockerId, dto: C.ResourcesDto, f: Faults)
    requires w.Valid() && id in w.rows && w.rows[id].dockerId == Some(d)
    ensures var (w', ok) := C.RemadeSpec(w, id, dto, f);
      && w'.Valid() && id in w'.rows
      && KeepsOrRenews(w, w', OfRow(id))
      && (Agrees(w', OfRow(id)) <==> ok || Agrees(w, OfRow(id)))
  {
    RemadeEffect(w, id, dto, f);
  }

  /** What the rebuild leaves of the row itself. */
  lemma RebuildSeenByRow(w: World, id: RowId, d: DockerId, dto: C.ResourcesDto, f: Faults)
    requires Coherent(w) && id in w.rows && w.rows[id].dockerId == Some(d)
    ensures var (w', ok) := C.RebuildSpec(w, id, d, dto, f);
      && w'.Valid() && id in w'.rows && KeepsOrRenews(w, w', OfRow(id)) && d in w.engine.containers
      && (Agrees(w', OfRow(id)) <==> ok || Survives(w, id, d, f))
  {
    assert Agrees(w, OfRow(id));
    ClearedEffect(w.engine, w.rows[id], d, f);
    var w0 := w.(engine := C.Cleared(w.engine, w.rows[id], d, f));
    assert Agrees(w0, OfRow(id)) <==> Survives(w, id, d, f);
    RemadeSeenByRow(w0, id, d, dto, f);
  }

  lemma RebuildKeeps(w: World, id: RowId, d: DockerId, dto: C.ResourcesDto, f: Faults)
    requires Coherent(w) && id in w.rows && w.rows[id].dockerId == Some(d)
    ensures d in w.engine.containers
    ensures Coherent(C.RebuildSpec(w, id, d, dto, f).0) <==> RebuildIsSafe(w, id, d, f)
  {
    hide C.RemadeSpec, C.Cleared, C.RebuiltSpec;
    var me := OfRow(id);
    var row := w.rows[id];
    RebuildSeenByRow(w, id, d, dto, f);
    ClearedName(w, id, d, f);
    ClearedEffect(w.engine, row, d, f);
    RemadeEffect(w.(engine := C.Cleared(w.engine, row, d, f)), id, dto, f);
    var (w', ok) := C.RebuildSpec(w, id, d, dto, f);
    if f.removeNamed || NameSpares(w, id) {
      forall c | c != me ensures Undisturbed(w, w', c) {
        RebuildSeenByOthers(w, id, d, dto, f, c);
      }
      StepCoherent(w, w', {me});
      assert Coherent(w') <==> Agrees(w', me);
    } else {
      var c :| Claims(w, c) && c != me
          && !(Agrees(w, c) && w.engine.containers[IdOf(w, c).value].spec.name != row.name);
      RebuildSeenByOthers(w, id, d, dto, f, c);
      assert Claims(w', c) && !Agrees(w', c);
    }
  }

  /** The mount and the internal port play no part in the agreement. */
  lemma EditKeeps(w: World, id: RowId, dto: C.ResourcesDto)
    requires id in w.rows
    ensures Coherent(C.EditRow(w, id, dto)) <==> Coherent(w)
  {
    var w' := C.EditRow(w, id, dto);
    forall c
      ensures (Claims(w', c) <==> Claims(w, c))
          && (Claims(w, c) ==> IdOf(w', c) == IdOf(w, c) && (Agrees(w', c) <==> Agrees(w, c)))
    {
    }
    assert w'.rows.Keys == w.rows.Keys;
    assert w'.Valid() <==> w.Valid() by {
      assert forall r | r in w.rows ::
          w'.rows[r].project == w.rows[r].project && w'.rows[r].dockerId == w.rows[r].dockerId;
    }
  }

  /** The request gives another volume or another internal port than the row has. */
  predicate AsksForAnother(row: Row, dto: C.ResourcesDto) {
    || (dto.volume.Some? && dto.volume.value != row.mount)
    || (dto.internalPort.Some? && dto.internalPort.value != row.internalPort)
  }

  predicate NamesVolume(dto: C.ResourcesDto) {
    dto.volume.Some? && dto.volume.value.Some? && dto.volume.value.value != ""
  }

  ghost predicate UpdateIsSafe(w: World, id: RowId, user: UserId, dto: C.ResourcesDto, isAdmin: bool, f: Faults)
    requires Coherent(w)
  {
    Access(w, id, user, isAdmin) == Ok && AsksForAnother(w.rows[id], dto) && !(NamesVolume(dto) && f.volume) ==>
      Agrees(w, OfRow(id)) && RebuildIsSafe(w, id, w.rows[id].dockerId.value, f)
  }

  lemma UpdateResourcesKeeps(w: World, id: RowId, user: UserId, dto: C.ResourcesDto, isAdmin: bool, f: Faults)
    requires Coherent(w)
    ensures Coherent(C.UpdateResourcesSpec(w, id, user, dto, isAdmin, f).0)
        <==> UpdateIsSafe(w, id, user, dto, isAdmin, f)
  {
    hide Coherent, World.Valid, C.RebuildSpec, RebuildIsSafe;
    CoherentIsValid(w);
    if Access(w, id, user, isAdmin) == Ok {
      AgreesWith(w, OfRow(id));
      var d := w.rows[id].dockerId.value;
      if AsksForAnother(w.rows[id], dto) && !(NamesVolume(dto) && f.volume) {
        RebuildKeeps(w, id, d, dto, f);
        RebuildValid(w, id, d, dto, f);
        var (w', ok) := C.RebuildSpec(w, id, d, dto, f);
        if ok {
          EditKeeps(w', id, dto);
        }
      } else {
        EditKeeps(w, id, dto);
      }
    }
  }

  // -------------------------------------------------------------- deployment

  lemma CompensatedKeeps(w: World, p: ProjectId, n: DeploymentId)
    requires p in w.projects && n in w.deployments
    ensures Coherent(D.Compensated(w, p, n)) <==> Coherent(w)
    ensures Coherent(D.Finished(w, p, n)) <==> Coherent(w)
  {
    SameClaims(w, D.Compensated(w, p, n));
    SameClaims(w, D.Finished(w, p, n));
  }

  /** Coherence reads rows, databases, counters, the engine and the set of projects. */
  lemma SameClaims(v: World, w: World)
    requires v.rows == w.rows && v.nextRow == w.nextRow && v.engine == w.engine && v.projects.Keys == w.projects.Keys
    requires v.databases == w.databases && v.nextDatabase == w.nextDatabase
    requires v.deployments.Keys == w.deployments.Keys && v.nextDeployment == w.nextDeployment
    requires forall n | n in w.deployments :: v.deployments[n].project == w.deployments[n].project
    ensures Coherent(v) <==> Coherent(w)
  {
    forall c
      ensures (Claims(v, c) <==> Claims(w, c))
          && (Claims(w, c) ==> IdOf(v, c) == IdOf(w, c) && (Agrees(v, c) <==> Agrees(w, c)))
    {
    }
    assert v.Valid() <==> w.Valid();
  }

  lemma BegunKeeps(w: World, p: ProjectId, kind: D.Kind)
    requires Coherent(w) && p in w.projects
    ensures Coherent(D.Begun(w, p, kind))
  {
    var w' := D.Begun(w, p, kind);
    forall c ensures Undisturbed(w, w', c) {
    }
    StepCoherent(w, w', {});
  }

  /** A container that no row names does not disturb anybody. */
  lemma LaunchKeeps(w: World, p: ProjectId, input: D.DeployInput, f: Faults)
    requires Coherent(w) && p in w.projects
    ensures Coherent(D.LaunchSpec(w, p, input, f).0)
  {
    hide D.LaunchSpec, D.LaunchSucceeds, D.NewSpec, Coherent, World.Valid;
    CoherentIsValid(w);
    D.LaunchEffect(w, p, input, f);
    LaunchValid(w, p, input, f);
    NextIsNew(w);
    var w' := D.LaunchSpec(w, p, input, f).0;
    forall c ensures Undisturbed(w, w', c) {
      IdsBelowNext(w, c);
    }
    StepCoherent(w, w', {});
  }

  function RowsAsClaimants(rows: set<RowId>): set<Claimant> {
    set r | r in rows :: OfRow(r)
  }

  lemma OthersNotNamed(w: World, rows: set<RowId>, c: Claimant)
    requires Coherent(w) && c !in RowsAsClaimants(rows) && Claims(w, c)
    ensures Agrees(w, c) && IdOf(w, c).value !in D.Named(w.rows, rows)
  {
    assert Agrees(w, c);
    forall r | r in rows && r in w.rows ensures w.rows[r].dockerId != IdOf(w, c) {
      assert Claims(w, OfRow(r)) && OfRow(r) != c;
    }
  }

  lemma ReplacedKeeps(w: World, p: ProjectId, failing: set<DockerId>, w': World)
    requires Coherent(w) && w'.Valid() && w'.databases == w.databases
    requires D.Replaced(w, p, failing, w')
    ensures Coherent(w')
  {
    var me := OfRow(w.nextRow);
    var touched := RowsAsClaimants(w.RowsOf(p)) + {me};
    forall c | c !in touched ensures Undisturbed(w, w', c) {
      if Claims(w, c) {
        OthersNotNamed(w, w.RowsOf(p), c);
        IdsBelowNext(w, c);
      }
    }
    forall c | c in touched && Claims(w', c) ensures c == me {
      assert c.r !in w.RowsOf(p);
    }
    StepCoherent(w, w', touched);
    assert Agrees(w', me);
  }

  lemma CommitKeeps(w: World, p: ProjectId, n: DeploymentId, input: D.DeployInput, port: nat, spec: Spec, f: Faults)
    requires Coherent(w) && p in w.projects && n in w.deployments
    requires Ports.FreeContainerPort(w.UsedByContainers()) == Some(port)
        && spec.bindings == map[D.InternalPort(input) := port]
    requires !w.engine.NameTaken(spec.name)
    ensures var launched := Engine(w.engine.containers[w.engine.next := Container(spec, true)], w.engine.next + 1);
      Coherent(D.CommitSpec(w.(engine := launched), p, n, input, w.engine.next, port, f))
  {
    var launched := Engine(w.engine.containers[w.engine.next := Container(spec, true)], w.engine.next + 1);
    D.CommitReplaces(w, p, n, input, port, spec, f);
    CommitValid(w, p, n, input, port, spec, f);
    ReplacedKeeps(w, p, f.remove, D.CommitSpec(w.(engine := launched), p, n, input, w.engine.next, port, f));
  }

  /**
   A deployment never breaks the agreement, whichever of its calls fail:
   before the new row is written nothing is disturbed, afterwards the rows
   of the removed containers are gone.
   */
  lemma DeployKeeps(w: World, user: UserId, p: ProjectId, input: D.DeployInput, f: Faults)
    requires Coherent(w)
    ensures Coherent(D.DeploySpec(w, user, p, input, f).0)
  {
    if p in w.projects && w.projects[p].owner == user {
      var begun := D.Begun(w, p, input.kind);
      BegunKeeps(w, p, input.kind);
      D.LaunchEffect(begun, p, input, f);
      LaunchKeeps(begun, p, input, f);
      var (w1, made) := D.LaunchSpec(begun, p, input, f);
      if made.None? {
        CompensatedKeeps(w1, p, w.nextDeployment);
      } else {
        var (d, port) := made.value;
        CommitKeeps(begun, p, w.nextDeployment, input, port, D.NewSpec(p, begun.projects[p], input, port), f);
        CompensatedKeeps(D.CommitSpec(w1, p, w.nextDeployment, input, d, port, f), p, w.nextDeployment);
      }
    }
  }

  // -------------------------------------------------- suspend, resume, remove

  /** Suspending keeps the agreement exactly when every running container of the project could be stopped. */
  predicate SuspendIsSafe(w: World, p: ProjectId, f: Faults) {
    p in w.projects ==> P.Targets(w, p, true) !! f.stop
  }

  /** Resuming keeps the agreement exactly when every stopped container of the project could be started. */
  ghost predicate ResumeIsSafe(w: World, p: ProjectId, f: Faults) {
    p in w.projects ==>
      forall r | r in w.RowsOf(p) && w.rows[r].status != RUNNING && w.rows[r].dockerId.Some? ::
          w.rows[r].dockerId.value !in f.start
  }

  /**
   What suspending or resuming does to one claimant: `ids` are the containers
   whose call succeeded, `only` tells whether the update picks the RUNNING rows.
   */
  lemma SwitchSeenBy(w: World, p: ProjectId, only: bool, faults: set<DockerId>, on: bool, w': World, c: Claimant)
    requires Coherent(w) && Claims(w, c)
    requires w'.databases == w.databases
    requires w'.rows == P.SetStatus(w.rows, p, only, if on then RUNNING else STOPPED)
    requires w'.engine.containers == P.SetRunning(w.engine.containers, P.Targets(w, p, only) - faults, on)
    ensures c !in RowsAsClaimants(P.LoopRows(w, p, only)) ==> Undisturbed(w, w', c)
    ensures Claims(w', c) && IdOf(w', c) == IdOf(w, c) && Agrees(w, c)
    ensures c in RowsAsClaimants(P.LoopRows(w, p, only)) ==>
      (Agrees(w', c) <==> (on <==> w.engine.containers[IdOf(w, c).value].running) || IdOf(w, c).value !in faults)
  {
    var rows := P.LoopRows(w, p, only);
    assert Agrees(w, c);
    if c !in RowsAsClaimants(rows) {
      OthersNotNamed(w, rows, c);
    } else {
      assert IdOf(w, c).value in P.Targets(w, p, only);
    }
  }

  lemma SwitchKeeps(w: World, p: ProjectId, only: bool, faults: set<DockerId>, on: bool, w': World)
    requires Coherent(w) && w'.Valid()
    requires w'.databases == w.databases
    requires w'.rows == P.SetStatus(w.rows, p, only, if on then RUNNING else STOPPED)
    requires w'.engine.containers == P.SetRunning(w.engine.containers, P.Targets(w, p, only) - faults, on)
    ensures Coherent(w') <==> forall r | r in P.LoopRows(w, p, only) ::
      Agrees(w, OfRow(r)) && ((on <==> w.rows[r].status == RUNNING) || w.rows[r].dockerId.value !in faults)
  {
    var rows := P.LoopRows(w, p, only);
    var touched := RowsAsClaimants(rows);
    forall c | Claims(w, c)
      ensures c !in touched ==> Undisturbed(w, w', c)
      ensures Claims(w', c) && IdOf(w', c) == IdOf(w, c) && Agrees(w, c)
      ensures c in touched ==>
        (Agrees(w', c) <==> (on <==> w.engine.containers[IdOf(w, c).value].running) || IdOf(w, c).value !in faults)
    {
      SwitchSeenBy(w, p, only, faults, on, w', c);
    }
    forall c | c !in touched ensures Undisturbed(w, w', c) {
      assert Claims(w', c) ==> Claims(w, c);
    }
    StepCoherent(w, w', touched);
    forall r | r in rows ensures OfRow(r) in touched && Claims(w, OfRow(r)) && Agrees(w, OfRow(r)) {
    }
  }

  lemma SuspendKeeps(w: World, p: ProjectId, f: Faults)
    requires Coherent(w)
    ensures Coherent(P.SuspendSpec(w, p, f).0) <==> SuspendIsSafe(w, p, f)
  {
    if p in w.projects {
      var w' := P.SuspendSpec(w, p, f).0;
      assert w'.Valid();
      SwitchKeeps(w, p, true, f.stop, false, w');
      forall r | r in P.LoopRows(w, p, true)
        ensures Agrees(w, OfRow(r)) && w.rows[r].dockerId.value in P.Targets(w, p, true)
      {
        assert Claims(w, OfRow(r));
      }
    }
  }

  lemma ResumeKeeps(w: World, p: ProjectId, f: Faults)
    requires Coherent(w)
    ensures Coherent(P.ResumeSpec(w, p, f).0) <==> ResumeIsSafe(w, p, f)
  {
    if p in w.projects {
      var w' := P.ResumeSpec(w, p, f).0;
      assert w'.Valid();
      SwitchKeeps(w, p, false, f.start, true, w');
      assert P.LoopRows(w, p, false) == w.RowsOf(p);
      forall r | r in w.RowsOf(p) ensures Agrees(w, OfRow(r)) {
        assert Claims(w, OfRow(r));
      }
    }
  }

  lemma RemoveProjectKeeps(w: World, p: ProjectId, user: UserId, f: Faults)
    requires Coherent(w)
    ensures Coherent(P.RemoveSpec(w, p, user, f).0)
  {
    if p in w.projects && w.projects[p].owner == user {
      var w' := P.RemoveSpec(w, p, user, f).0;
      var rows := P.LoopRows(w, p, false);
      assert rows == w.RowsOf(p);
      forall c | c !in RowsAsClaimants(rows) ensures Undisturbed(w, w', c) {
        if Claims(w, c) {
          OthersNotNamed(w, rows, c);
        }
      }
      assert w'.Valid();
      StepCoherent(w, w', RowsAsClaimants(rows));
    }
  }

  // --------------------------------------------------------------- databases

  lemma CreateDatabaseKeeps(w: World, user: UserId, dto: B.CreateDto, f: Faults)
    requires Coherent(w)
    ensures Coherent(B.CreateSpec(w, user, dto, f).0)
  {
    var (w', r) := B.CreateSpec(w, user, dto, f);
    B.CreateIsAllOrNothing(w, user, dto, f);
    B.ProvisionOneContainer(B.WithPlaceholder(w, user, dto.kind), w.nextDatabase, dto, f);
    OneMoreContainerKeeps(w, w', OfDatabase(w.nextDatabase));
  }

  /** A step that adds at most one container, and at most one claimant for it. */
  lemma OneMoreContainerKeeps(w: World, w': World, me: Claimant)
    requires Coherent(w) && w' == w.(engine := w'.engine, databases := w'.databases, nextDatabase := w.nextDatabase + 1)
    requires me == OfDatabase(w.nextDatabase)
    requires w'.databases.Keys <= w.databases.Keys + {w.nextDatabase}
    requires forall b | b in w.databases :: b in w'.databases && w'.databases[b] == w.databases[b]
    requires w'.engine == w.engine ||
             exists c :: w'.engine == Engine(w.engine.containers[w.engine.next := c], w.engine.next + 1)
                 && !w.engine.NameTaken(c.spec.name)
    requires Claims(w', me) ==> IdOf(w', me) == Some(w.engine.next) && Agrees(w', me)
    ensures Coherent(w')
  {
    assert w'.engine.Valid();
    assert w'.Valid();
    forall c | c != me ensures Undisturbed(w, w', c) {
      IdsBelowNext(w, c);
    }
    StepCoherent(w, w', {me});
  }

  lemma RemoveDatabaseKeeps(w: World, b: DatabaseId, user: UserId, f: Faults)
    requires Coherent(w)
    ensures Coherent(B.RemoveSpec(w, b, user, f).0)
  {
    hide Coherent, Undisturbed, World.Valid;
    var me, w' := OfDatabase(b), B.RemoveSpec(w, b, user, f).0;
    if b in w.databases && w.databases[b].owner == user {
      AgreesWith(w, me);
      CoherentIsValid(w);
      RemoveDatabaseValid(w, b, user, f);
      OthersUndisturbed(w, w', me, w.databases[b].dockerId.value);
      StepCoherent(w, w', {me});
    }
  }

  // ------------------------------------------------------------ main results

  /** Which requests keep the agreement; all those not listed always do. */
  ghost predicate Safe(w: World, req: Request, f: Faults)
    requires Coherent(w)
  {
    match req
    case RestartContainer(id, user) => RestartIsSafe(w, id, user, f)
    case UpdateResources(id, user, dto, isAdmin) => UpdateIsSafe(w, id, user, dto, isAdmin, f)
    case Suspend(project) => SuspendIsSafe(w, project, f)
    case Resume(project) => ResumeIsSafe(w, project, f)
    case _ => true
  }

  /** One step, under any faults: the agreement is kept exactly by the safe requests. */
  lemma StepKeepsExactlyWhenSafe(w: World, req: Request, f: Faults)
    requires Coherent(w)
    ensures Coherent(Apply(w, req, f).0) <==> Safe(w, req, f)
  {
    hide Coherent, RestartIsSafe, UpdateIsSafe, SuspendIsSafe, ResumeIsSafe;
    hide C.CreateSpec, C.StartSpec, C.StopSpec, C.RestartSpec, C.RemoveSpec, C.UpdateResourcesSpec, C.AllocatePortSpec;
    hide C.RemovePortSpec, D.DeploySpec, P.SuspendSpec, P.ResumeSpec, P.RemoveSpec, B.CreateSpec, B.RemoveSpec;
    match req
    case CreateContainer(user, project, dto) => CreateKeeps(w, user, project, dto, f);
    case StartContainer(id, user) => StartKeeps(w, id, user, f);
    case StopContainer(id, user) => StopKeeps(w, id, user, f);
    case RestartContainer(id, user) => RestartKeeps(w, id, user, f);
    case RemoveContainer(id, user) => RemoveKeeps(w, id, user, f);
    case UpdateResources(id, user, dto, isAdmin) => UpdateResourcesKeeps(w, id, user, dto, isAdmin, f);
    case AllocatePort(id, user, port, ownFirst) => AllocatePortKeeps(w, id, user, port, ownFirst, f);
    case RemovePort(id, user) => RemovePortKeeps(w, id, user);
    case Deploy(user, project, input) => DeployKeeps(w, user, project, input, f);
    case Suspend(project) => SuspendKeeps(w, project, f);
    case Resume(project) => ResumeKeeps(w, project, f);
    case RemoveProject(project, user) => RemoveProjectKeeps(w, project, user, f);
    case CreateDatabase(user, dto) => CreateDatabaseKeeps(w, user, dto, f);
    case RemoveDatabase(b, user) => RemoveDatabaseKeeps(w, b, user, f);
  }

  /** Each request of the run is safe in the world it meets. */
  ghost predicate SafeRun(w: World, steps: seq<(Request, Faults)>)
    requires Coherent(w)
    decreases |steps|
  {
    steps == [] ||
    (Safe(w, steps[0].0, steps[0].1) &&
      (StepKeepsExactlyWhenSafe(w, steps[0].0, steps[0].1);
       SafeRun(Apply(w, steps[0].0, steps[0].1).0, steps[1..])))
  }

  /** Over whole runs: the two worlds agree after every request exactly when every request was safe. */
  lemma {:induction false} RunStaysCoherentExactlyWhenSafe(w: World, steps: seq<(Request, Faults)>)
    requires Coherent(w)
    ensures SafeRun(w, steps) <==> forall k | 0 <= k <= |steps| :: Coherent(Run(w, steps[..k]))
    decreases |steps|
  {
    if steps != [] {
      var (req, f) := steps[0];
      var w' := Apply(w, req, f).0;
      StepKeepsExactlyWhenSafe(w, req, f);
      forall k | 0 < k <= |steps| ensures Run(w, steps[..k]) == Run(w', steps[1..][..k - 1]) {
        assert steps[..k][1..] == steps[1..][..k - 1];
      }
      if Coherent(w') {
        RunStaysCoherentExactlyWhenSafe(w', steps[1..]);
        if SafeRun(w', steps[1..]) {
          forall k | 0 <= k <= |steps| ensures Coherent(Run(w, steps[..k])) {
            assert k > 0 ==> Coherent(Run(w', steps[1..][..k - 1]));
          }
        } else {
          var j :| 0 <= j <= |steps[1..]| && !Coherent(Run(w', steps[1..][..j]));
          assert !Coherent(Run(w, steps[..j + 1]));
        }
      } else {
        assert Run(w', steps[1..][..0]) == w';
        assert !Coherent(Run(w, steps[..1]));
      }
    }
  }

  /** No row has the Docker name of a container other than its own. */
  ghost predicate NamesApart(w: World) {
    forall r, d | r in w.rows && d in w.engine.containers ::
      w.engine.containers[d].spec.name == w.rows[r].name ==> w.rows[r].dockerId == Some(d)
  }

  lemma FaultFreeRestartIsSafe(w: World, id: RowId, user: UserId)
    requires Coherent(w) && NamesApart(w)
    ensures RestartIsSafe(w, id, user, NO_FAULTS)
  {
    if id in w.rows {
      assert Agrees(w, OfRow(id));
      TornDownEffect(w.engine, w.rows[id].dockerId.value, NO_FAULTS);
    }
  }

  lemma FaultFreeUpdateIsSafe(w: World, id: RowId, user: UserId, dto: C.ResourcesDto, isAdmin: bool)
    requires Coherent(w) && NamesApart(w)
    ensures UpdateIsSafe(w, id, user, dto, isAdmin, NO_FAULTS)
  {
    if id in w.rows {
      var me := OfRow(id);
      assert Agrees(w, me);
      var d := w.rows[id].dockerId.value;
      ClearedEffect(w.engine, w.rows[id], d, NO_FAULTS);
      forall c | Claims(w, c) && c != me ensures Agrees(w, c) && IdOf(w, c) != Some(d) {
      }
    }
  }

  /** Without faults, clashing names are the only danger. */
  lemma FaultFreeRequestsAreSafe(w: World, req: Request)
    requires Coherent(w) && NamesApart(w)
    ensures Safe(w, req, NO_FAULTS)
    ensures Coherent(Apply(w, req, NO_FAULTS).0)
  {
    StepKeepsExactlyWhenSafe(w, req, NO_FAULTS);
    match req
    case RestartContainer(id, user) => FaultFreeRestartIsSafe(w, id, user);
    case UpdateResources(id, user, dto, isAdmin) => FaultFreeUpdateIsSafe(w, id, user, dto, isAdmin);
    case _ =>
  }

  /** The worlds a run goes through all keep names apart. */
  ghost predicate NamesStayApart(w: World, steps: seq<(Request, Faults)>)
    decreases |steps|
  {
    NamesApart(w) && (steps == [] || NamesStayApart(Apply(w, steps[0].0, steps[0].1).0, steps[1..]))
  }

  /** Over whole runs: as long as no call fails and no names clash, the two worlds agree after every request. */
  lemma {:induction false} FaultFreeRunsStayCoherent(w: World, steps: seq<(Request, Faults)>)
    requires Coherent(w) && NamesStayApart(w, steps) && forall s | s in steps :: s.1 == NO_FAULTS
    ensures forall k | 0 <= k <= |steps| :: Coherent(Run(w, steps[..k]))
  {
    FaultFreeRunIsSafe(w, steps);
    RunStaysCoherentExactlyWhenSafe(w, steps);
  }

  lemma {:induction false} FaultFreeRunIsSafe(w: World, steps: seq<(Request, Faults)>)
    requires Coherent(w) && NamesStayApart(w, steps) && forall s | s in steps :: s.1 == NO_FAULTS
    ensures SafeRun(w, steps)
    decreases |steps|
  {
    if steps != [] {
      assert steps[0] in steps && forall s | s in steps[1..] :: s in steps;
      FaultFreeRequestsAreSafe(w, steps[0].0);
      FaultFreeRunIsSafe(Apply(w, steps[0].0, NO_FAULTS).0, steps[1..]);
    }
  }
}
