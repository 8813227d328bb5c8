/**
 The Docker engine as the backend sees it: a map from container ids to containers.
 Ids are issued once, names are unique among the containers present, and the
 `HostConfig` of a container is echoed back unchanged by `inspect`.

 A call is told whether it fails for a reason outside the model (`fault`); a
 failing call changes nothing.  A call can also fail for a reason the engine
 itself knows: the container is missing, its name is taken, or it is stopped
 already.
 */
module Docker {
  import opened Options

  type DockerId = nat

  /** What a creation request asks for: `bindings` maps a container port to the host port. */
  datatype Spec = Spec(name: string, image: string, bindings: map<nat, nat>, mount: Option<string>)

  datatype Container = Container(spec: Spec, running: bool)

  datatype Engine = Engine(containers: map<DockerId, Container>, next: DockerId) {

    ghost predicate Valid() {
      && (forall d | d in containers :: d < next)
      && (forall a, b | a in containers && b in containers && a != b ::
            containers[a].spec.name != containers[b].spec.name)
    }

    predicate NameTaken(name: string) {
      exists d | d in containers :: containers[d].spec.name == name
    }

    function BoundPort(d: DockerId, internalPort: nat): Option<nat>
      requires d in containers
    {
      var bindings := containers[d].spec.bindings;
      if internalPort in bindings then Some(bindings[internalPort]) else None
    }

    function Create(spec: Spec, fault: bool): (Engine, Option<DockerId>) {
      if fault || NameTaken(spec.name) then (this, None)
      else (Engine(containers[next := Container(spec, false)], next + 1), Some(next))
    }

    /** Starting a running container answers 304, which the service counts as success. */
    function Start(d: DockerId, fault: bool): (Engine, bool) {
      if d !in containers then (this, false)
      else if containers[d].running then (this, !fault)
      else if fault then (this, false)
      else (this.(containers := containers[d := containers[d].(running := true)]), true)
    }

    /** Stopping a stopped container answers 304, which the service reports as an error. */
    function Stop(d: DockerId, fault: bool): (Engine, bool) {
      if fault || d !in containers || !containers[d].running then (this, false)
      else (this.(containers := containers[d := containers[d].(running := false)]), true)
    }

    function Restart(d: DockerId, fault: bool): (Engine, bool) {
      if fault || d !in containers then (this, false)
      else (this.(containers := containers[d := containers[d].(running := true)]), true)
    }

    /** Forced removal: a running container goes as well. */
    function Remove(d: DockerId, fault: bool): (Engine, bool) {
      if fault || d !in containers then (this, false)
      else (this.(containers := containers - {d}), true)
    }

    /** Forced removal of the container that holds a name. */
    function RemoveNamed(name: string, fault: bool): (Engine, bool) {
      if fault || !NameTaken(name) then (this, false)
      else
        (this.(containers := map d | d in containers && containers[d].spec.name != name :: containers[d]), true)
    }
  }

  /** The engine as an object: every call reads and rewrites the one container table. */
  class Daemon {
    var containers: map<DockerId, Container>
    var next: DockerId

    ghost function State(): Engine
      reads this
    {
      Engine(containers, next)
    }

    method NameTaken(name: string) returns (taken: bool)
      ensures taken == State().NameTaken(name)
    {
      taken := exists d | d in containers :: containers[d].spec.name == name;
    }

    method Inspect(d: DockerId) returns (c: Option<Container>)
      ensures c == if d in containers then Some(containers[d]) else None
    {
      c := if d in containers then Some(containers[d]) else None;
    }

    method Create(spec: Spec, fault: bool) returns (id: Option<DockerId>)
      modifies this
      ensures (State(), id) == old(State()).Create(spec, fault)
    {
      var taken := NameTaken(spec.name);
      if fault || taken {
        return None;
      }
      id := Some(next);
      containers := containers[next := Container(spec, false)];
      next := next + 1;
    }

    method Start(d: DockerId, fault: bool) returns (ok: bool)
      modifies this`containers
      ensures (State(), ok) == old(State()).Start(d, fault)
    {
      if d !in containers {
        return false;
      }
      if fault {
        return false;
      }
      if !containers[d].running {
        containers := containers[d := containers[d].(running := true)];
      }
      return true;
    }

    method Stop(d: DockerId, fault: bool) returns (ok: bool)
      modifies this`containers
      ensures (State(), ok) == old(State()).Stop(d, fault)
    {
      if fault || d !in containers || !containers[d].running {
        return false;
      }
      containers := containers[d := containers[d].(running := false)];
      return true;
    }

    method Restart(d: DockerId, fault: bool) returns (ok: bool)
      modifies this`containers
      ensures (State(), ok) == old(State()).Restart(d, fault)
    {
      if fault || d !in containers {
        return false;
      }
      containers := containers[d := containers[d].(running := true)];
      return true;
    }

    method Remove(d: DockerId, fault: bool) returns (ok: bool)
      modifies this`containers
      ensures (State(), ok) == old(State()).Remove(d, fault)
    {
      if fault || d !in containers {
        return false;
      }
      containers := containers - {d};
      return true;
    }

    method RemoveNamed(name: string, fault: bool) returns (ok: bool)
      modifies this`containers
      ensures (State(), ok) == old(State()).RemoveNamed(name, fault)
    {
      var taken := NameTaken(name);
      if fault || !taken {
        return false;
      }
      containers := map d | d in containers && containers[d].spec.name != name :: containers[d];
      return true;
    }
  }
}
