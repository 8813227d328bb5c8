/** What a restart and a resource update achieve for the row they are asked about. */
module Reconcile {
  import opened Options
  import opened Docker
  import opened World
  import opened Requests
  import C = Containers
  import L = Lifecycle

  /**
   Container d is there and binds the row's internal port to exactly its host port, or to
   none if that is null or 0.
   */
  predicate BoundAsAsked(e: Engine, d: DockerId, row: Row) {
    && d in e.containers
    && var bindings := e.containers[d].spec.bindings;
    && (row.internalPort in bindings <==> row.hostPort.Some? && row.hostPort.value != 0)
    && (row.internalPort in bindings ==> Some(bindings[row.internalPort]) == row.hostPort)
  }

  /** The row says RUNNING and names a running container that is bound as the row asks. */
  predicate Reconciled(w: World, id: RowId) {
    && id in w.rows && w.rows[id].dockerId.Some? && w.rows[id].status == RUNNING
    && var d := w.rows[id].dockerId.value;
    && BoundAsAsked(w.engine, d, w.rows[id]) && w.engine.containers[d].running
  }

  /** The name and the image that every container of the row is made with. */
  predicate NamedAfter(spec: Spec, row: Row) {
    && spec.name == row.name
    && spec.image == row.imageName + ":" + (if row.imageTag == "" then "latest" else row.imageTag)
  }

  /** The only binding is the row's host port on the given internal port; null and 0 mean none. */
  predicate BindsOnly(spec: Spec, internalPort: nat, row: Row) {
    spec.bindings ==
      if row.hostPort.None? || row.hostPort.value == 0 then map[] else map[internalPort := row.hostPort.value]
  }

  /** The volume is mounted, unless it is null or empty. */
  predicate Mounts(spec: Spec, volume: Option<string>) {
    spec.mount == if volume.None? || volume.value == "" then None else volume
  }

  predicate BuiltFrom(spec: Spec, row: Row) {
    NamedAfter(spec, row) && BindsOnly(spec, row.internalPort, row) && Mounts(spec, row.mount)
  }

  lemma RecreatedRow(w: World, id: RowId, d: DockerId, f: Faults)
    requires w.Valid() && id in w.rows && w.rows[id].dockerId == Some(d)
    ensures var (w', made) := C.RecreateSpec(w, id, d, f);
      made.Some? ==>
        && made.value == w.engine.next
        && w'.rows == w.rows[id := w.rows[id].(dockerId := made)]
        && w'.projects == w.projects
        && made.value in w'.engine.containers && w'.engine.containers[made.value].spec == C.RowSpec(w.rows[id])
  {
  }

  /**
   However the world looks - the row's port changed or cleared, the container
   gone - and whatever calls fail: a restart that answers Ok has reconciled the
   row, and has changed no other row.  It has made a new container exactly when
   the old one was gone or bound otherwise, and made it from the fields of the row.
   */
  lemma RestartReconciles(w: World, id: RowId, user: UserId, f: Faults)
    requires w.Valid()
    ensures var (w', r) := C.RestartSpec(w, id, user, f);
      r == Ok ==>
        && Reconciled(w', id)
        && w'.rows.Keys == w.rows.Keys
        && (forall s | s in w.rows && s != id :: w'.rows[s] == w.rows[s])
        && w'.rows[id] == w.rows[id].(dockerId := w'.rows[id].dockerId, status := RUNNING)
        && w.rows[id].dockerId.Some?
        && (w'.rows[id].dockerId == w.rows[id].dockerId <==>
              BoundAsAsked(w.engine, w.rows[id].dockerId.value, w.rows[id]))
        && (w'.rows[id].dockerId != w.rows[id].dockerId ==>
              BuiltFrom(w'.engine.containers[w'.rows[id].dockerId.value].spec, w.rows[id]))
  {
    hide C.RecreateSpec, World.Valid;
    if id in w.rows {
      RowIdsAreOld(w, id);
    }
    if C.RestartSpec(w, id, user, f).1 == Ok && C.Drifted(w, id) {
      RecreatedRow(w, id, w.rows[id].dockerId.value, f);
    }
  }

  /** The row has a host port and its project a domain, so that there is an Nginx file to write. */
  predicate Published(w: World, row: Row) {
    && row.hostPort !in {None, Some(0)}
    && row.project in w.projects && w.projects[row.project].domain !in {None, Some("")}
  }

  /** The engine after the removal attempts of a recreation. */
  lemma TornName(w: World, id: RowId, d: DockerId, f: Faults)
    requires w.Valid() && id in w.rows
    ensures var torn := if d in w.engine.containers then C.TornDown(w.engine, d, f) else w.engine;
      torn.NameTaken(w.rows[id].name) <==> L.NameStaysTaken(w, id, d, f)
  {
    if d in w.engine.containers {
      L.TornDownName(w, id, d, f);
    }
  }

  /**
   A restart of a row with a container succeeds exactly when inspection, the final
   restart and the Nginx update go through and either nothing drifted, or a new
   container can be made - its name not taken by another one, or by the old one
   outliving its removal - and Nginx be told.
   */
  lemma RestartSucceedsExactlyWhen(w: World, id: RowId, user: UserId, f: Faults)
    requires w.Valid() && Access(w, id, user, false) == Ok && w.rows[id].dockerId.Some?
    ensures var row, d := w.rows[id], w.rows[id].dockerId.value;
      C.RestartSpec(w, id, user, f).1 == Ok <==>
        && !f.inspect && !f.restart && !(Published(w, row) && f.nginxSync)
        && (BoundAsAsked(w.engine, d, row) ||
            (!f.create && !L.NameStaysTaken(w, id, d, f) && !(Published(w, row) && f.nginx)))
  {
    hide C.TornDown, World.Valid, L.NameStaysTaken;
    var d := w.rows[id].dockerId.value;
    TornName(w, id, d, f);
    if C.Drifted(w, id) {
      RecreatedRow(w, id, d, f);
    }
  }

  /** A restart right after a successful one never recreates, whatever fails then. */
  lemma SecondRestartKeepsContainer(w: World, id: RowId, user: UserId, f: Faults, g: Faults)
    requires w.Valid() && C.RestartSpec(w, id, user, f).1 == Ok
    ensures var w1 := C.RestartSpec(w, id, user, f).0;
      var w2 := C.RestartSpec(w1, id, user, g).0;
      && w2 == w1
      && (g == NO_FAULTS ==> C.RestartSpec(w1, id, user, g).1 == Ok)
  {
    RestartReconciles(w, id, user, f);
    var w1 := C.RestartSpec(w, id, user, f).0;
    SettledRestart(w1, id, user, g);
    assert Access(w, id, user, false) == Ok;
    assert w1.projects == w.projects by {
      if C.Drifted(w, id) { RecreatedRow(w, id, w.rows[id].dockerId.value, f); }
    }
  }

  /** On a reconciled row a restart changes nothing that can be seen. */
  lemma SettledRestart(w: World, id: RowId, user: UserId, f: Faults)
    requires Reconciled(w, id)
    ensures C.RestartSpec(w, id, user, f).0 == w
    ensures Access(w, id, user, false) == Ok && f == NO_FAULTS ==> C.RestartSpec(w, id, user, f).1 == Ok
  {
    var d := w.rows[id].dockerId.value;
    assert w.engine.containers[d := w.engine.containers[d].(running := true)] == w.engine.containers;
    assert w.rows[id := w.rows[id].(status := RUNNING)] == w.rows;
  }

  /**
   A resource update that answers Ok on a row with a container: the row gets the
   volume and the internal port the request gives, and keeps the rest.  It names a
   new container exactly when the request gives another volume or another internal
   port than the row has; otherwise the engine is as before.  The new container
   runs exactly when the row says RUNNING, and is made for the row, with the volume
   of the request and bound from its internal port, or from the row's when that is
   missing or 0.
   */
  lemma UpdateRebuildsExactlyWhen(
      w: World, id: RowId, user: UserId, dto: C.ResourcesDto, isAdmin: bool, f: Faults)
    requires w.Valid() && Access(w, id, user, isAdmin) == Ok && w.rows[id].dockerId.Some?
    requires C.UpdateResourcesSpec(w, id, user, dto, isAdmin, f).1 == Ok
    ensures var w' := C.UpdateResourcesSpec(w, id, user, dto, isAdmin, f).0;
      var row := w.rows[id];
      && w'.rows.Keys == w.rows.Keys && (forall r | r in w.rows && r != id :: w'.rows[r] == w.rows[r])
      && w'.rows[id] == row.(
            dockerId := w'.rows[id].dockerId,
            mount := if dto.volume.None? then row.mount else dto.volume.value,
            internalPort := if dto.internalPort.None? then row.internalPort else dto.internalPort.value)
      && w'.rows[id].dockerId.Some? && w'.rows[id].dockerId.value in w'.engine.containers
      && (w'.rows[id].dockerId != row.dockerId <==>
            || (dto.volume.Some? && dto.volume.value != row.mount)
            || (dto.internalPort.Some? && dto.internalPort.value != row.internalPort))
      && (w'.rows[id].dockerId == row.dockerId ==> w'.engine == w.engine)
      && (w'.rows[id].dockerId != row.dockerId ==>
            var made := w'.engine.containers[w'.rows[id].dockerId.value];
            && (made.running <==> row.status == RUNNING)
            && NamedAfter(made.spec, row)
            && Mounts(made.spec, if dto.volume.Some? then dto.volume.value else None)
            && BindsOnly(made.spec,
                         if dto.internalPort in {None, Some(0)} then row.internalPort else dto.internalPort.value, row))
  {
    hide World.Valid, C.Cleared, C.RemadeSpec, C.RebuiltSpec, NamedAfter, Mounts, BindsOnly;
    var d, row := w.rows[id].dockerId.value, w.rows[id];
    RowIdsAreOld(w, id);
    ClearedOf(w, id, d, f);
    RemadeCases(w.(engine := C.Cleared(w.engine, row, d, f)), id, dto, f);
    RebuiltFrom(row, dto);
  }

  lemma RebuiltFrom(row: Row, dto: C.ResourcesDto)
    ensures var spec := C.RebuiltSpec(row, dto);
      && NamedAfter(spec, row)
      && Mounts(spec, if dto.volume.Some? then dto.volume.value else None)
      && BindsOnly(spec, if dto.internalPort in {None, Some(0)} then row.internalPort else dto.internalPort.value, row)
  {
  }

  lemma ClearedOf(w: World, id: RowId, d: DockerId, f: Faults)
    requires w.Valid() && id in w.rows
    ensures var e := C.Cleared(w.engine, w.rows[id], d, f);
      e.Valid() && e.next == w.engine.next
      && (e.NameTaken(w.rows[id].name) <==> f.removeNamed && L.NameStaysTaken(w, id, d, f))
  {
    ClearedNext(w.engine, w.rows[id], d, f);
    if d in w.engine.containers {
      L.ClearedName(w, id, d, f);
    }
  }

  /**
   A resource update of a row without a container only edits the row.  One of a row
   with a container succeeds exactly when: no other volume or internal port is asked
   for, the container is there and takes the new limits; or the volume that is named
   can be made, and so can a new container under a name that is free by then, and it
   starts if the row says RUNNING.  A failing one changes no row.
   */
  lemma UpdateSucceedsExactlyWhen(
      w: World, id: RowId, user: UserId, dto: C.ResourcesDto, isAdmin: bool, f: Faults)
    requires w.Valid() && Access(w, id, user, isAdmin) == Ok
    ensures var (w', r) := C.UpdateResourcesSpec(w, id, user, dto, isAdmin, f);
      var row := w.rows[id];
      && (row.dockerId.None? ==>
            && r == Ok
            && w' == w.(rows := w.rows[id := row.(
                 mount := if dto.volume.None? then row.mount else dto.volume.value,
                 internalPort := if dto.internalPort.None? then row.internalPort else dto.internalPort.value)]))
      && (row.dockerId.Some? ==>
            var d := row.dockerId.value;
            && (r == Ok <==>
                  if L.AsksForAnother(row, dto) then
                    && !(L.NamesVolume(dto) && f.volume) && !f.create
                    && !(f.removeNamed && L.NameStaysTaken(w, id, d, f))
                    && !(row.status == RUNNING && w.engine.next in f.start)
                  else !f.update && d in w.engine.containers)
            && (r != Ok ==> r == ServerError && w'.rows == w.rows))
  {
    hide World.Valid, L.NameStaysTaken, C.Cleared, C.RemadeSpec;
    if w.rows[id].dockerId.Some? {
      var d := w.rows[id].dockerId.value;
      ClearedOf(w, id, d, f);
      RemadeCases(w.(engine := C.Cleared(w.engine, w.rows[id], d, f)), id, dto, f);
    }
  }

  lemma RowIdsAreOld(w: World, id: RowId)
    requires w.Valid() && id in w.rows
    ensures w.rows[id].dockerId != Some(w.engine.next)
  {
  }

  lemma ClearedNext(e: Engine, row: Row, d: DockerId, f: Faults)
    ensures C.Cleared(e, row, d, f).next == e.next
  {
  }

  /** A request that gives another volume than the row has ends with the row and its container both having it. */
  lemma ChangedVolumeArrives(
      w: World, id: RowId, user: UserId, volume: Option<string>, dto: C.ResourcesDto, isAdmin: bool, f: Faults)
    requires w.Valid() && Access(w, id, user, isAdmin) == Ok && w.rows[id].dockerId.Some?
    requires dto.volume == Some(volume) && volume != w.rows[id].mount
    requires C.UpdateResourcesSpec(w, id, user, dto, isAdmin, f).1 == Ok
    ensures var w' := C.UpdateResourcesSpec(w, id, user, dto, isAdmin, f).0;
      && id in w'.rows && w'.rows[id].mount == volume
      && w'.rows[id].dockerId.Some? && w'.rows[id].dockerId.value in w'.engine.containers
      && Mounts(w'.engine.containers[w'.rows[id].dockerId.value].spec, volume)
  {
    hide C.UpdateResourcesSpec;
    UpdateRebuildsExactlyWhen(w, id, user, dto, isAdmin, f);
  }

  /**
   After a rebuild the container's volume is the row's volume exactly when the
   request named the volume itself or the row has none: a request that only changes
   the internal port builds a container without the volume its row still records.
   It is bound as the row asks, unless the request set the internal port to 0.
   */
  lemma RebuiltMountMatchesExactlyWhen(w: World, id: RowId, user: UserId, dto: C.ResourcesDto, isAdmin: bool, f: Faults)
    requires w.Valid() && Access(w, id, user, isAdmin) == Ok && w.rows[id].dockerId.Some?
    requires L.AsksForAnother(w.rows[id], dto)
    requires C.UpdateResourcesSpec(w, id, user, dto, isAdmin, f).1 == Ok
    ensures var w' := C.UpdateResourcesSpec(w, id, user, dto, isAdmin, f).0;
      && id in w'.rows && w'.rows[id].dockerId.Some? && w'.rows[id].dockerId.value in w'.engine.containers
      && var made := w'.engine.containers[w'.rows[id].dockerId.value];
      && (Mounts(made.spec, w'.rows[id].mount) <==> dto.volume.Some? || w.rows[id].mount in {None, Some("")})
      && (dto.internalPort != Some(0) ==> BoundAsAsked(w'.engine, w'.rows[id].dockerId.value, w'.rows[id]))
  {
    hide C.UpdateResourcesSpec;
    UpdateRebuildsExactlyWhen(w, id, user, dto, isAdmin, f);
  }
}
