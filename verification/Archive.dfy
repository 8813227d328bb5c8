/**
 Flattening an extracted archive: when everything lies in one wrapper directory,
 its entries are renamed one level up and the wrapper is removed.
 */
module Archive {
  import opened Options

  datatype Node = File(content: string) | Dir(entries: Entries)

  type Entries = map<string, Node>

  /** What `readdir` may return: every name once, in some order. */
  ghost predicate Lists(names: seq<string>, entries: Entries) {
    && (forall i, j | 0 <= i < j < |names| :: names[i] != names[j])
    && (forall name :: name in names <==> name in entries)
  }

  function Names(names: seq<string>): set<string> {
    set name | name in names
  }

  /** `rename(dir/wrapper/name, dir/name)`, while the target is free. */
  function MoveUp(dir: Entries, wrapper: string, name: string): Entries
    requires wrapper in dir && dir[wrapper].Dir? && name in dir[wrapper].entries && name !in dir
  {
    dir[name := dir[wrapper].entries[name]][wrapper := Dir(dir[wrapper].entries - {name})]
  }

  class ArchiveService {
    /** The directory the archive was extracted to. */
    var dir: Entries

    /** The renames, one after the other.  Renaming an entry onto the wrapper, which is not empty then, fails. */
    method MoveInner(wrapper: string, innerItems: seq<string>) returns (ok: bool)
      requires wrapper in dir && dir[wrapper].Dir? && dir == map[wrapper := dir[wrapper]]
      requires Lists(innerItems, dir[wrapper].entries)
      modifies this
      ensures var inner := old(dir)[wrapper].entries;
        && ok == (wrapper !in inner)
        && (ok ==> dir == Halfway(wrapper, inner, inner.Keys))
        && (!ok ==> StoppedAt(wrapper, inner, innerItems, dir))
    {
      hide Halfway, MoveUp;
      ghost var inner := dir[wrapper].entries;
      HalfwayEnds(wrapper, inner);
      assert Names(innerItems[..0]) == {};
      for i := 0 to |innerItems|
        invariant wrapper !in innerItems[..i] && Names(innerItems[..i]) <= inner.Keys
        invariant dir == Halfway(wrapper, inner, Names(innerItems[..i]))
      {
        var item := innerItems[i];
        assert item in innerItems && item !in innerItems[..i];
        if item == wrapper {
          return false;
        }
        HalfwayStep(wrapper, inner, Names(innerItems[..i]), item);
        dir := MoveUp(dir, wrapper, item);
        assert innerItems[..i + 1] == innerItems[..i] + [item];
        assert Names(innerItems[..i + 1]) == Names(innerItems[..i]) + {item};
      }
      assert innerItems[..|innerItems|] == innerItems && Names(innerItems) == inner.Keys;
      ok := true;
    }

    /** `items` and `innerItems` are the two listings; `ok` is false when a rename throws. */
    method FlattenDirectory(items: seq<string>, innerItems: seq<string>) returns (ok: bool)
      requires Lists(items, dir)
      requires |items| == 1 && dir[items[0]].Dir? ==> Lists(innerItems, dir[items[0]].entries)
      modifies this
      ensures !(|items| == 1 && old(dir)[items[0]].Dir?) ==> ok && dir == old(dir)
      ensures |items| == 1 && old(dir)[items[0]].Dir? ==>
        var wrapper, inner := items[0], old(dir)[items[0]].entries;
        && ok == (wrapper !in inner)
        && (ok ==> dir == inner && DropsFirstComponent(old(dir), wrapper, dir))
        && (!ok ==> StoppedAt(wrapper, inner, innerItems, dir))
        && (!ok ==> exists i | 0 <= i < |innerItems| ::
          innerItems[i] == wrapper && NothingIsLost(old(dir), wrapper, dir, Names(innerItems[..i])))
    {
      ok := true;
      ListsOne(items, dir);
      if |items| == 1 {
        var wrapper := items[0];
        if dir[wrapper].Dir? {
          ghost var inner := dir[wrapper].entries;
          HalfwayEnds(wrapper, inner);
          ok := MoveInner(wrapper, innerItems);
          if ok {
            dir := dir - {wrapper};
            EveryPathDrops(old(dir), wrapper, inner);
          } else {
            StoppedLosesNothing(old(dir), wrapper, inner, innerItems, dir);
          }
        }
      }
    }
  }

  /** The renames stopped at the entry named like the wrapper, with the entries listed before it moved. */
  ghost predicate StoppedAt(wrapper: string, inner: Entries, innerItems: seq<string>, dir: Entries) {
    exists i | 0 <= i < |innerItems| ::
      innerItems[i] == wrapper && wrapper !in innerItems[..i] && dir == Halfway(wrapper, inner, Names(innerItems[..i]))
  }

  lemma ListsOne(items: seq<string>, dir: Entries)
    requires Lists(items, dir)
    ensures |items| == 1 ==> dir.Keys == {items[0]} && dir == map[items[0] := dir[items[0]]]
  {
    if |items| == 1 {
      assert forall name :: name in items <==> name == items[0];
    }
  }

  /** The directory while the loop runs: the moved entries beside the wrapper that holds the others. */
  function Halfway(wrapper: string, inner: Entries, moved: set<string>): Entries {
    (map name | name in inner && name in moved :: inner[name])[wrapper := Dir(inner - moved)]
  }

  lemma HalfwayEnds(wrapper: string, inner: Entries)
    ensures Halfway(wrapper, inner, {}) == map[wrapper := Dir(inner)]
    ensures wrapper !in inner ==> Halfway(wrapper, inner, inner.Keys) - {wrapper} == inner
  {
    assert inner - {} == inner;
  }

  lemma HalfwayStep(wrapper: string, inner: Entries, moved: set<string>, name: string)
    requires wrapper !in moved && moved <= inner.Keys && name in inner && name !in moved && name != wrapper
    ensures var dir := Halfway(wrapper, inner, moved);
      wrapper in dir && dir[wrapper].Dir? && name in dir[wrapper].entries && name !in dir
    ensures MoveUp(Halfway(wrapper, inner, moved), wrapper, name) == Halfway(wrapper, inner, moved + {name})
  {
    assert inner - moved - {name} == inner - (moved + {name});
  }

  // ---------------------------------------------------------- nothing is lost

  /** The node a path leads to. */
  function Lookup(node: Node, path: seq<string>): Option<Node>
    decreases |path|
  {
    if path == [] then Some(node)
    else if node.Dir? && path[0] in node.entries then Lookup(node.entries[path[0]], path[1..])
    else None
  }

  /** Every path leads where it led with the wrapper in front of it, and the wrapper is gone. */
  ghost predicate DropsFirstComponent(before: Entries, wrapper: string, after: Entries) {
    && (forall path :: Lookup(Dir(after), path) == Lookup(Dir(before), [wrapper] + path))
    && wrapper !in after
  }

  /** Every path below the wrapper still leads to its node: one level up if its entry was moved, where it was if not. */
  ghost predicate NothingIsLost(before: Entries, wrapper: string, after: Entries, moved: set<string>) {
    && (forall path | path != [] ::
        Lookup(Dir(before), [wrapper] + path) == Lookup(Dir(after), NewPath(wrapper, moved, path)))
    && after.Keys == moved + {wrapper}
  }

  function NewPath(wrapper: string, moved: set<string>, path: seq<string>): seq<string>
    requires path != []
  {
    if path[0] in moved then path else [wrapper] + path
  }

  lemma EveryPathDrops(before: Entries, wrapper: string, inner: Entries)
    requires before == map[wrapper := Dir(inner)] && wrapper !in inner
    ensures DropsFirstComponent(before, wrapper, inner)
  {
    forall path ensures Lookup(Dir(inner), path) == Lookup(Dir(before), [wrapper] + path) {
      assert ([wrapper] + path)[1..] == path;
    }
  }

  /** Where the loop stands, every file is still there. */
  lemma NothingIsLostHalfway(wrapper: string, inner: Entries, moved: set<string>, path: seq<string>)
    requires wrapper !in moved && path != []
    ensures Lookup(Dir(inner), path) == Lookup(Dir(Halfway(wrapper, inner, moved)), NewPath(wrapper, moved, path))
  {
    var dir := Dir(Halfway(wrapper, inner, moved));
    if path[0] !in moved {
      assert ([wrapper] + path)[1..] == path;
      assert Lookup(dir, [wrapper] + path) == Lookup(Dir(inner - moved), path);
    }
  }

  lemma StoppedLosesNothing(
      before: Entries, wrapper: string, inner: Entries, innerItems: seq<string>, after: Entries)
    requires before == map[wrapper := Dir(inner)] && Lists(innerItems, inner)
    requires StoppedAt(wrapper, inner, innerItems, after)
    ensures exists i | 0 <= i < |innerItems| ::
      innerItems[i] == wrapper && NothingIsLost(before, wrapper, after, Names(innerItems[..i]))
  {
    hide Halfway;
    var i :| 0 <= i < |innerItems| && innerItems[i] == wrapper && wrapper !in innerItems[..i]
      && after == Halfway(wrapper, inner, Names(innerItems[..i]));
    var moved := Names(innerItems[..i]);
    assert moved <= inner.Keys by {
      assert forall name | name in innerItems[..i] :: name in innerItems;
    }
    HalfwayKeys(wrapper, inner, moved);
    forall path | path != []
      ensures Lookup(Dir(before), [wrapper] + path) == Lookup(Dir(after), NewPath(wrapper, moved, path))
    {
      NothingIsLostHalfway(wrapper, inner, moved, path);
      assert ([wrapper] + path)[1..] == path;
    }
    assert NothingIsLost(before, wrapper, after, moved);
  }

  lemma HalfwayKeys(wrapper: string, inner: Entries, moved: set<string>)
    requires moved <= inner.Keys
    ensures Halfway(wrapper, inner, moved).Keys == moved + {wrapper}
  {
  }
}
