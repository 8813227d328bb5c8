/**
 The port allocators.  Containers take the first free port of 8000..9999; a user
 may move a container to a port of 19000..25999; databases take the first free
 port from 40000 upwards, with no upper bound in the scan.
 */
module Ports {
  import opened Options

  const FIRST_CONTAINER_PORT: nat := 8000
  const LAST_CONTAINER_PORT: nat := 9999
  const FIRST_ALLOCATABLE_PORT: nat := 19000
  const LAST_ALLOCATABLE_PORT: nat := 25999
  const FIRST_DATABASE_PORT: nat := 40000

  /** p is the least unused port that is at least `from`. */
  ghost predicate IsLeastFree(used: set<nat>, from: nat, p: nat) {
    p >= from && p !in used && forall q: nat | from <= q < p :: q in used
  }

  /** The bounded scan of containers and deployments. */
  function FreeContainerPort(used: set<nat>, from: nat := FIRST_CONTAINER_PORT): (r: Option<nat>)
    ensures r.Some? ==> IsLeastFree(used, from, r.value) && r.value <= LAST_CONTAINER_PORT
    ensures r.None? <==> forall q: nat | from <= q <= LAST_CONTAINER_PORT :: q in used
    decreases LAST_CONTAINER_PORT + 1 - from
  {
    if from > LAST_CONTAINER_PORT then None
    else if from !in used then Some(from)
    else FreeContainerPort(used, from + 1)
  }

  function AtOrAbove(used: set<nat>, from: nat): set<nat> {
    set p | p in used && p >= from
  }

  /** Passing a used port leaves strictly fewer used ports ahead. */
  lemma FewerAhead(used: set<nat>, from: nat)
    requires from in used
    ensures |AtOrAbove(used, from)| == |AtOrAbove(used, from + 1)| + 1
  {
    assert AtOrAbove(used, from) == AtOrAbove(used, from + 1) + {from};
  }

  /**
   The unbounded scan of databases.  It ends because each step passes one of the
   finitely many used ports, and it passes no more than that.
   */
  function FreeDatabasePort(used: set<nat>, from: nat := FIRST_DATABASE_PORT): (p: nat)
    ensures IsLeastFree(used, from, p)
    ensures p <= from + |AtOrAbove(used, from)|
    decreases |AtOrAbove(used, from)|
  {
    if from in used then
      FewerAhead(used, from);
      FreeDatabasePort(used, from + 1)
    else from
  }

  method ScanContainerPorts(used: set<nat>) returns (r: Option<nat>)
    ensures r == FreeContainerPort(used)
  {
    for port := FIRST_CONTAINER_PORT to LAST_CONTAINER_PORT + 1
      invariant FreeContainerPort(used, port) == FreeContainerPort(used)
    {
      if port !in used {
        return Some(port);
      }
    }
    r := None;
  }

  method ScanDatabasePorts(used: set<nat>) returns (port: nat)
    ensures port == FreeDatabasePort(used)
  {
    port := FIRST_DATABASE_PORT;
    while port in used
      invariant FreeDatabasePort(used, port) == FreeDatabasePort(used)
      decreases |AtOrAbove(used, port)|
    {
      FewerAhead(used, port);
      port := port + 1;
    }
  }

  /** The answer is a TCP port unless every port of 40000..65535 is used, which takes 25536 used ports. */
  lemma DatabasePortIsTcpPort(used: set<nat>)
    ensures FreeDatabasePort(used) <= 65535 <==> exists p: nat | p <= 65535 :: p >= FIRST_DATABASE_PORT && p !in used
    ensures |AtOrAbove(used, FIRST_DATABASE_PORT)| <= 25535 ==> FreeDatabasePort(used) <= 65535
  {
    var port := FreeDatabasePort(used);
    assert port !in used;
  }

  lemma PortRange(from: nat, to: nat) returns (s: set<nat>)
    requires from <= to
    ensures forall p: nat :: p in s <==> from <= p < to
    ensures |s| == to - from
  {
    s := {};
    var i := from;
    while i < to
      invariant from <= i <= to
      invariant forall p: nat :: p in s <==> from <= p < i
      invariant |s| == i - from
    {
      s := s + {i};
      i := i + 1;
    }
  }

  /**
   The bounded scan gives up exactly when all 2000 ports are taken; so fewer than
   2000 used ports always leave one.
   */
  lemma ContainerPortAvailable(used: set<nat>)
    ensures FreeContainerPort(used).None? <==>
            |set p | p in used && FIRST_CONTAINER_PORT <= p <= LAST_CONTAINER_PORT| == 2000
    ensures |used| < 2000 ==> FreeContainerPort(used).Some?
  {
    var inRange := set p | p in used && FIRST_CONTAINER_PORT <= p <= LAST_CONTAINER_PORT;
    var all := PortRange(FIRST_CONTAINER_PORT, LAST_CONTAINER_PORT + 1);
    Subset(inRange, all);
    Subset(inRange, used);
    if inRange == all {
      forall q: nat | FIRST_CONTAINER_PORT <= q <= LAST_CONTAINER_PORT ensures q in used {
        assert q in all;
      }
    }
    if FreeContainerPort(used).None? {
      assert inRange == all;
    }
  }

  lemma {:induction false} Subset<T>(a: set<T>, b: set<T>)
    requires a <= b
    ensures |a| <= |b|
    ensures |a| == |b| ==> a == b
  {
    if a != {} {
      var x :| x in a;
      Subset(a - {x}, b - {x});
    }
  }
}
