/**
 A run without a single failing call after which a user's container is gone:
 a zip deployment records a row name that is not the Docker name of its
 container, so another user's container may take it, and the removal by name
 inside `updateResources` then hits that container.
 */
module NameClash {
  import opened Options
  import opened Docker
  import opened World
  import opened Requests
  import opened Lifecycle
  import Text
  import Ports
  import C = Containers
  import D = Deployments

  const OWNER: UserId := 1
  const OTHER: UserId := 2

  /** Two users with one project each, and nothing deployed yet. */
  const START := World(
    map[0 := Project(OWNER, "a", None, None, INACTIVE), 1 := Project(OTHER, "b", None, None, INACTIVE)],
    map[], 0, map[], 0, map[], 0, Engine(map[], 0))

  const DEPLOYMENT := Deploy(OWNER, 0, D.DeployInput(D.Zip, None, 80, 1, 1, 2))
  const CREATION := CreateContainer(OTHER, 1, C.CreateDto("a-2", "nginx", None, 80, None))
  const UPDATE := UpdateResources(0, OWNER, C.ResourcesDto(None, Some(81)), false)

  lemma Names()
    ensures D.StampedName("a", 1) == "a-1" && D.StampedName("a", 2) == "a-2"
  {
    assert Text.Lower("a") == Text.LowerChar('a') + Text.Lower("");
    assert Text.Lower("a") == "a";
    assert Text.Dashed("a") == "a";
    assert Text.Show(1) == "1" && Text.Show(2) == "2";
  }

  ghost predicate Fresh(w: World) {
    && Coherent(w) && {0, 1} <= w.projects.Keys
    && w.projects[0].owner == OWNER && w.projects[0].name == "a" && w.projects[1].owner == OTHER
    && w.rows == map[] && w.nextRow == 0 && w.engine == Engine(map[], 0)
  }

  /** OWNER's row is called "a-2", its container "a-1". */
  ghost predicate Deployed(w: World) {
    && Coherent(w) && {0, 1} <= w.projects.Keys && w.projects[0].owner == OWNER && w.projects[1].owner == OTHER
    && w.rows.Keys == {0} && w.nextRow == 1 && w.engine.next == 1
    && w.rows[0].name == "a-2" && w.rows[0].internalPort == 80 && w.rows[0].project == 0
    && w.rows[0].hostPort == Some(8000)
    && w.rows[0].dockerId == Some(0) && w.engine.containers.Keys == {0} && w.engine.containers[0].spec.name == "a-1"
  }

  /** OTHER's container has taken the name "a-2". */
  ghost predicate Created(w: World) {
    && Coherent(w) && 0 in w.projects && w.projects[0].owner == OWNER
    && {0, 1} <= w.rows.Keys && w.rows[0].name == "a-2" && w.rows[0].internalPort == 80 && w.rows[0].project == 0
    && w.rows[1].dockerId == Some(1) && 1 in w.engine.containers && w.engine.containers[1].spec.name == "a-2"
  }

  lemma DeploymentStep(w: World)
    requires Fresh(w)
    ensures Deployed(D.DeploySpec(w, OWNER, 0, DEPLOYMENT.input, NO_FAULTS).0)
  {
    hide D.DeploySpec, D.StampedName;
    Names();
    var input := DEPLOYMENT.input;
    DeployKeeps(w, OWNER, 0, input, NO_FAULTS);
    assert w.UsedByContainers() == {};
    assert D.LaunchSucceeds(w, 0, input, NO_FAULTS);
    D.LaunchedDeploymentReplaces(w, OWNER, 0, input, NO_FAULTS);
    D.LaunchedRow(w, OWNER, 0, input, NO_FAULTS);
    var w' := D.DeploySpec(w, OWNER, 0, input, NO_FAULTS).0;
    assert w'.rows.Keys == {0};
  }

  lemma CreationStep(w: World)
    requires Deployed(w)
    ensures Created(C.CreateSpec(w, OTHER, 1, CREATION.container, NO_FAULTS).0)
  {
    CreateKeeps(w, OTHER, 1, CREATION.container, NO_FAULTS);
    var used := w.UsedByContainers();
    assert used == {8000};
    assert 8001 !in used;
    assert !w.engine.NameTaken("a-2");
  }

  lemma UpdateStep(w: World)
    requires Created(w)
    ensures var w' := C.UpdateResourcesSpec(w, 0, OWNER, UPDATE.resources, false, NO_FAULTS).0;
      1 in w'.rows && w'.rows[1].dockerId == Some(1) && 1 !in w'.engine.containers && !Coherent(w')
  {
    hide C.RemadeSpec, C.Cleared;
    assert Agrees(w, OfRow(0)) && Agrees(w, OfRow(1));
    UpdateResourcesKeeps(w, 0, OWNER, UPDATE.resources, false, NO_FAULTS);
    var d := w.rows[0].dockerId.value;
    var w1 := C.RebuildSpec(w, 0, d, UPDATE.resources, NO_FAULTS).0;
    RebuildSeenByOthers(w, 0, d, UPDATE.resources, NO_FAULTS, OfRow(1));
    assert Claims(w1, OfRow(1)) && !Agrees(w1, OfRow(1));
    RebuildRemovesNamesake(w, d);
  }

  lemma RebuildRemovesNamesake(w: World, d: DockerId)
    requires Created(w) && w.rows[0].dockerId == Some(d)
    ensures 1 !in C.RebuildSpec(w, 0, d, UPDATE.resources, NO_FAULTS).0.engine.containers
  {
    assert Agrees(w, OfRow(0)) && Claims(w, OfRow(1)) && IdOf(w, OfRow(1)) != IdOf(w, OfRow(0));
    IdsBelowNext(w, OfRow(1));
    ClearedEffect(w.engine, w.rows[0], d, NO_FAULTS);
    RemadeEffect(w.(engine := C.Cleared(w.engine, w.rows[0], d, NO_FAULTS)), 0, UPDATE.resources, NO_FAULTS);
  }

  lemma RunOfThree(w: World, a: (Request, Faults), b: (Request, Faults), c: (Request, Faults))
    ensures Run(w, [a, b, c]) == Apply(Apply(Apply(w, a.0, a.1).0, b.0, b.1).0, c.0, c.1).0
  {
    var w1 := Apply(w, a.0, a.1).0;
    var w2 := Apply(w1, b.0, b.1).0;
    assert [a, b, c][1..] == [b, c];
    assert Run(w, [a, b, c]) == Run(w1, [b, c]);
    assert [b, c][1..] == [c];
    assert Run(w1, [b, c]) == Run(w2, [c]);
    assert Run(w2, [c]) == Run(Apply(w2, c.0, c.1).0, []);
  }

  /** OTHER's row names container 1, and that container is gone. */
  ghost predicate Robbed(w: World) {
    !Coherent(w) && 1 in w.rows && w.rows[1].dockerId == Some(1) && 1 !in w.engine.containers
  }

  lemma DeploymentRequest(w: World)
    requires Fresh(w)
    ensures Deployed(Apply(w, DEPLOYMENT, NO_FAULTS).0)
  {
    hide D.DeploySpec, Fresh, Deployed;
    DeploymentStep(w);
  }

  lemma CreationRequest(w: World)
    requires Deployed(w)
    ensures Created(Apply(w, CREATION, NO_FAULTS).0)
  {
    hide C.CreateSpec, Created, Deployed;
    CreationStep(w);
  }

  lemma UpdateRequest(w: World)
    requires Created(w)
    ensures Robbed(Apply(w, UPDATE, NO_FAULTS).0)
  {
    hide C.UpdateResourcesSpec, Coherent, Created;
    UpdateStep(w);
  }

  lemma ClashFrom(w: World)
    requires Fresh(w)
    ensures var w' := Apply(Apply(Apply(w, DEPLOYMENT, NO_FAULTS).0, CREATION, NO_FAULTS).0, UPDATE, NO_FAULTS).0;
      Robbed(w')
  {
    DeploymentRequest(w);
    var w1 := Apply(w, DEPLOYMENT, NO_FAULTS).0;
    CreationRequest(w1);
    var w2 := Apply(w1, CREATION, NO_FAULTS).0;
    UpdateRequest(w2);
  }

  /** The whole run: OTHER's row is left naming a container that is gone. */
  lemma ForeignContainerRemoved()
    ensures Coherent(START)
    ensures Robbed(Run(START, [(DEPLOYMENT, NO_FAULTS), (CREATION, NO_FAULTS), (UPDATE, NO_FAULTS)]))
  {
    RunOfThree(START, (DEPLOYMENT, NO_FAULTS), (CREATION, NO_FAULTS), (UPDATE, NO_FAULTS));
    ClashFrom(START);
  }
}
