/**
 Backup retention: two services share one backup directory, and each keeps the
 newest of its own files.
 */
module Retention {
  import opened Options
  import opened Text

  datatype File = File(name: string, time: int)

  /** The directory, in the order `readdir` lists it. */
  type Directory = seq<File>

  ghost predicate Distinct(d: Directory) {
    forall i, j | 0 <= i < j < |d| :: d[i].name != d[j].name
  }

  function Matching(d: Directory, suffix: string): Directory {
    if d == [] then [] else (if EndsWith(d[0].name, suffix) then [d[0]] else []) + Matching(d[1..], suffix)
  }

  /** `sort((a, b) => b.time - a.time)`, which is stable. */
  function Inserted(f: File, s: Directory): Directory {
    if s == [] || f.time >= s[0].time then [f] + s else [s[0]] + Inserted(f, s[1..])
  }

  function NewestFirst(d: Directory): Directory {
    if d == [] then [] else Inserted(d[0], NewestFirst(d[1..]))
  }

  /**
   The files over the limit: `if (files.length > n) files.slice(n)`; None is NaN, a negative
   limit counts from the end.
   */
  function Excess(files: Directory, limit: Option<int>): Directory {
    if limit.None? || |files| <= limit.value then []
    else if limit.value >= 0 then files[limit.value..]
    else if -limit.value <= |files| then files[|files| + limit.value..]
    else files
  }

  function Without(d: Directory, name: string): Directory {
    if d == [] then [] else (if d[0].name == name then [] else [d[0]]) + Without(d[1..], name)
  }

  /** The deletions, up to the first file that cannot be deleted. */
  function Unlinked(d: Directory, victims: Directory, stuck: set<string>): Directory
    decreases |victims|
  {
    if victims == [] || victims[0].name in stuck then d
    else Unlinked(Without(d, victims[0].name), victims[1..], stuck)
  }

  function Enforced(d: Directory, suffix: string, limit: Option<int>, stuck: set<string>): Directory {
    Unlinked(d, Excess(NewestFirst(Matching(d, suffix)), limit), stuck)
  }

  class BackupDirectory {
    var files: Directory

    method Unlink(name: string, stuck: set<string>) returns (ok: bool)
      modifies this
      ensures ok == (name !in stuck)
      ensures files == if ok then Without(old(files), name) else old(files)
    {
      ok := name !in stuck;
      if ok {
        files := Without(files, name);
      }
    }

    /** The loop both services run over the sorted listing. */
    method DeleteExcess(sorted: Directory, limit: Option<int>, stuck: set<string>)
      modifies this
      ensures files == Unlinked(old(files), Excess(sorted, limit), stuck)
    {
      var toDelete := Excess(sorted, limit);
      for i := 0 to |toDelete|
        invariant Unlinked(files, toDelete[i..], stuck) == Unlinked(old(files), toDelete, stuck)
      {
        assert toDelete[i..][1..] == toDelete[i + 1..];
        var ok := Unlink(toDelete[i].name, stuck);
        if !ok {
          return;
        }
      }
    }

    /** `provider`: where backups go; only local ones are cleaned up.  `retention`: the parsed setting. */
    method CleanupOldBackups(provider: string, retention: Option<int>, stuck: set<string>)
      modifies this
      ensures files == if provider == "local" then Enforced(old(files), ".sql", retention, stuck) else old(files)
    {
      if provider != "local" {
        return;
      }
      DeleteExcess(NewestFirst(Matching(files, ".sql")), retention, stuck);
    }

    method EnforceRetentionPolicy(stuck: set<string>)
      modifies this
      ensures files == Enforced(old(files), ".sql.gz", Some(7), stuck)
    {
      DeleteExcess(NewestFirst(Matching(files, ".sql.gz")), Some(7), stuck);
    }
  }

  // ------------------------------------------------------------------ sorting

  predicate Sorted(s: Directory) {
    forall i, j | 0 <= i < j < |s| :: s[i].time >= s[j].time
  }

  lemma {:induction false} InsertedFiles(f: File, s: Directory)
    ensures multiset(Inserted(f, s)) == multiset(s) + multiset{f}
  {
    if s != [] && f.time < s[0].time {
      InsertedFiles(f, s[1..]);
      assert s == [s[0]] + s[1..];
    }
  }

  lemma {:induction false} InsertedSorts(f: File, s: Directory)
    requires Sorted(s)
    ensures Sorted(Inserted(f, s))
  {
    if s != [] && f.time < s[0].time {
      InsertedSorts(f, s[1..]);
      InsertedFiles(f, s[1..]);
      var r := Inserted(f, s[1..]);
      forall x | x in r ensures s[0].time >= x.time {
        assert x in multiset(r);
        assert x == f || x in s[1..];
      }
    }
  }

  /** Newest first, and the same files. */
  lemma {:induction false} NewestFirstSorts(d: Directory)
    ensures Sorted(NewestFirst(d)) && multiset(NewestFirst(d)) == multiset(d)
  {
    if d != [] {
      NewestFirstSorts(d[1..]);
      InsertedSorts(d[0], NewestFirst(d[1..]));
      InsertedFiles(d[0], NewestFirst(d[1..]));
      assert d == [d[0]] + d[1..];
    }
  }

  lemma {:induction false} MatchingFiles(d: Directory, suffix: string)
    ensures forall f :: f in Matching(d, suffix) <==> f in d && EndsWith(f.name, suffix)
    ensures Distinct(d) ==> Distinct(Matching(d, suffix))
  {
    if d != [] {
      MatchingFiles(d[1..], suffix);
    }
  }

  /** Distinctness of names, seen through the multiset. */
  lemma DistinctListing(a: Directory, b: Directory)
    requires multiset(a) == multiset(b) && Distinct(a)
    ensures Distinct(b) && |a| == |b|
  {
    assert |a| == |multiset(a)| && |b| == |multiset(b)|;
    forall i, j | 0 <= i < j < |b| ensures b[i].name != b[j].name {
      if b[i].name == b[j].name {
        assert b[i] in multiset(a) && b[j] in multiset(a);
        assert b[i] == b[j];
        assert b == b[..i] + [b[i]] + b[i + 1..j] + [b[j]] + b[j + 1..];
        assert multiset(b)[b[i]] >= 2;
        TwiceInDistinct(a, b[i]);
      }
    }
  }

  lemma {:induction false} TwiceInDistinct(a: Directory, f: File)
    requires Distinct(a)
    ensures multiset(a)[f] <= 1
  {
    if a != [] {
      assert a == [a[0]] + a[1..];
      TwiceInDistinct(a[1..], f);
      assert f == a[0] ==> f !in a[1..];
    }
  }

  // ----------------------------------------------------------------- deletion

  lemma {:induction false} WithoutOne(d: Directory, name: string)
    ensures forall f :: f in Without(d, name) <==> f in d && f.name != name
    ensures Distinct(d) ==> Distinct(Without(d, name))
  {
    if d != [] {
      WithoutOne(d[1..], name);
    }
  }

  lemma ConsSteps(f: File, rest: Directory, name: string, suffix: string)
    ensures Without([f] + rest, name) == (if f.name == name then [] else [f]) + Without(rest, name)
    ensures Matching([f] + rest, suffix) == (if EndsWith(f.name, suffix) then [f] else []) + Matching(rest, suffix)
  {
    assert ([f] + rest)[1..] == rest;
  }

  lemma {:induction false} MatchingWithout(d: Directory, name: string, suffix: string)
    ensures Matching(Without(d, name), suffix) == Without(Matching(d, suffix), name)
  {
    if d != [] {
      MatchingWithout(d[1..], name, suffix);
      ConsSteps(d[0], Without(d[1..], name), name, suffix);
      ConsSteps(d[0], Matching(d[1..], suffix), name, suffix);
      assert [] + Without(d[1..], name) == Without(d[1..], name)
          && [] + Matching(d[1..], suffix) == Matching(d[1..], suffix);
    }
  }

  lemma {:induction false} WithoutOther(d: Directory, name: string)
    requires forall f | f in d :: f.name != name
    ensures Without(d, name) == d
  {
    if d != [] {
      WithoutOther(d[1..], name);
    }
  }

  lemma {:induction false} WithoutSize(d: Directory, victim: File)
    requires Distinct(d) && victim in d
    ensures |Without(d, victim.name)| == |d| - 1
  {
    if d[0] == victim {
      assert forall f | f in d[1..] :: f.name != victim.name;
      WithoutOther(d[1..], victim.name);
    } else {
      WithoutSize(d[1..], victim);
    }
  }

  /** One deletion of a matching file. */
  lemma OneUnlinked(d: Directory, v: File, suffix: string)
    requires Distinct(d) && v in Matching(d, suffix)
    ensures var left := Without(d, v.name);
      && Distinct(left) && |Matching(left, suffix)| == |Matching(d, suffix)| - 1
      && (forall f :: f in left <==> f in d && f != v)
      && (forall f | f in Matching(d, suffix) && f != v :: f in Matching(left, suffix))
  {
    MatchingFiles(d, suffix);
    MatchingFiles(Without(d, v.name), suffix);
    WithoutOne(d, v.name);
    MatchingWithout(d, v.name, suffix);
    WithoutSize(Matching(d, suffix), v);
    assert forall f | f in d && f.name == v.name :: f == v;
  }

  /** What is left when every deletion succeeds. */
  lemma {:induction false} UnlinkedFiles(d: Directory, victims: Directory, suffix: string)
    requires Distinct(d) && Distinct(victims) && forall v | v in victims :: v in Matching(d, suffix)
    ensures forall f :: f in Unlinked(d, victims, {}) <==> f in d && f !in victims
    ensures |Matching(Unlinked(d, victims, {}), suffix)| == |Matching(d, suffix)| - |victims|
    decreases |victims|
  {
    hide Matching, Without;
    if victims != [] {
      var v, rest := victims[0], victims[1..];
      assert v in victims && forall x | x in rest :: x in victims && x.name != v.name;
      OneUnlinked(d, v, suffix);
      UnlinkedFiles(Without(d, v.name), rest, suffix);
      assert forall f :: f in victims <==> f == v || f in rest;
    }
  }

  /** Deletions that fail only leave more files. */
  lemma {:induction false} StuckLeavesMore(d: Directory, victims: Directory, stuck: set<string>)
    ensures forall f | f in Unlinked(d, victims, stuck) :: f in d
    ensures forall f | f in d && (forall v | v in victims :: v.name != f.name) :: f in Unlinked(d, victims, stuck)
    decreases |victims|
  {
    if victims != [] && victims[0].name !in stuck {
      WithoutOne(d, victims[0].name);
      StuckLeavesMore(Without(d, victims[0].name), victims[1..], stuck);
      assert victims[0] in victims && forall v | v in victims[1..] :: v in victims;
    }
  }

  // ---------------------------------------------------------------- retention

  /** How many of n files a limit lets go of. */
  function Dropped(n: nat, limit: Option<int>): (k: nat)
    ensures k <= n
  {
    if limit.None? || n <= limit.value then 0
    else if limit.value >= 0 then n - limit.value
    else if -limit.value <= n then -limit.value else n
  }

  lemma ExcessIsTail(sorted: Directory, limit: Option<int>)
    ensures Excess(sorted, limit) == sorted[|sorted| - Dropped(|sorted|, limit)..]
  {
    assert sorted[|sorted|..] == [] && sorted[0..] == sorted;
  }

  /** The files the policy lets go of, and the ones of its kind it keeps. */
  lemma Parts(d: Directory, suffix: string, limit: Option<int>) returns (kept: Directory, gone: Directory)
    requires Distinct(d)
    ensures gone == Excess(NewestFirst(Matching(d, suffix)), limit) && NewestFirst(Matching(d, suffix)) == kept + gone
    ensures Distinct(kept + gone) && Sorted(kept + gone) && |gone| == Dropped(|Matching(d, suffix)|, limit)
    ensures forall f :: f in kept + gone <==> f in Matching(d, suffix)
  {
    var files := Matching(d, suffix);
    var sorted := NewestFirst(files);
    MatchingFiles(d, suffix);
    NewestFirstSorts(files);
    DistinctListing(files, sorted);
    ExcessIsTail(sorted, limit);
    var k := |sorted| - Dropped(|sorted|, limit);
    kept, gone := sorted[..k], sorted[k..];
    assert sorted == kept + gone;
    forall f ensures f in sorted <==> f in files {
      assert f in multiset(sorted) <==> f in multiset(files);
    }
  }

  lemma KeptIsNewer(kept: Directory, gone: Directory, k: File, g: File)
    requires Sorted(kept + gone) && k in kept && g in gone
    ensures k.time >= g.time
  {
    var i :| 0 <= i < |kept| && kept[i] == k;
    var j :| 0 <= j < |gone| && gone[j] == g;
    assert (kept + gone)[i] == k && (kept + gone)[|kept| + j] == g;
  }

  /**
   Retention keeps the newest: of its own files it lets go of the oldest ones
   over the limit and of no others, and it touches no other file.
   */
  lemma RetentionKeepsNewest(d: Directory, suffix: string, limit: Option<int>)
    requires Distinct(d)
    ensures var after, n := Enforced(d, suffix, limit, {}), |Matching(d, suffix)|;
      && |Matching(after, suffix)| == n - Dropped(n, limit)
      && (forall f | f in after :: f in d)
      && (forall f | f in d && !EndsWith(f.name, suffix) :: f in after)
      && (forall kept, gone | kept in Matching(after, suffix) && gone in d && gone !in after :: kept.time >= gone.time)
  {
    var after := Enforced(d, suffix, limit, {});
    var kept, gone := Parts(d, suffix, limit);
    assert forall v | v in gone :: v in kept + gone;
    forall i, j | 0 <= i < j < |gone| ensures gone[i].name != gone[j].name {
      assert gone[i] == (kept + gone)[|kept| + i] && gone[j] == (kept + gone)[|kept| + j];
    }
    UnlinkedFiles(d, gone, suffix);
    MatchingFiles(d, suffix);
    MatchingFiles(after, suffix);
    forall k, g | k in Matching(after, suffix) && g in d && g !in after ensures k.time >= g.time {
      assert k in kept + gone && k !in gone;
      KeptIsNewer(kept, gone, k, g);
    }
  }

  /** When a deletion fails the rest is left alone: whatever fails, the kept files and all others stay. */
  lemma FailuresDeleteNothingElse(d: Directory, suffix: string, limit: Option<int>, stuck: set<string>)
    requires Distinct(d)
    ensures forall f | f in Enforced(d, suffix, limit, {}) :: f in Enforced(d, suffix, limit, stuck)
    ensures forall f | f in Enforced(d, suffix, limit, stuck) :: f in d
  {
    var kept, gone := Parts(d, suffix, limit);
    var after := Enforced(d, suffix, limit, {});
    StuckLeavesMore(d, gone, stuck);
    StuckLeavesMore(d, gone, {});
    assert forall v | v in gone :: v in kept + gone;
    forall i, j | 0 <= i < j < |gone| ensures gone[i].name != gone[j].name {
      assert gone[i] == (kept + gone)[|kept| + i] && gone[j] == (kept + gone)[|kept| + j];
    }
    UnlinkedFiles(d, gone, suffix);
    MatchingFiles(d, suffix);
    forall f | f in after ensures forall v | v in gone :: v.name != f.name {
      assert f in d && forall v | v in gone :: v in d;
    }
  }

  // -------------------------------------------------- two policies, one place

  lemma {:induction false} WithoutCommutes(d: Directory, a: string, b: string)
    ensures Without(Without(d, a), b) == Without(Without(d, b), a)
  {
    if d != [] {
      WithoutCommutes(d[1..], a, b);
      ConsSteps(d[0], Without(d[1..], a), b, "");
      ConsSteps(d[0], Without(d[1..], b), a, "");
      assert [] + Without(d[1..], a) == Without(d[1..], a) && [] + Without(d[1..], b) == Without(d[1..], b);
    }
  }

  lemma {:induction false} UnlinkedWithout(d: Directory, victims: Directory, stuck: set<string>, name: string)
    ensures Unlinked(Without(d, name), victims, stuck) == Without(Unlinked(d, victims, stuck), name)
    decreases |victims|
  {
    if victims != [] && victims[0].name !in stuck {
      WithoutCommutes(d, name, victims[0].name);
      UnlinkedWithout(Without(d, victims[0].name), victims[1..], stuck, name);
    }
  }

  lemma {:induction false} UnlinkedCommutes(d: Directory, a: Directory, b: Directory, stuck: set<string>)
    ensures Unlinked(Unlinked(d, a, stuck), b, stuck) == Unlinked(Unlinked(d, b, stuck), a, stuck)
    decreases |a|
  {
    if a != [] && a[0].name !in stuck {
      UnlinkedCommutes(Without(d, a[0].name), a[1..], b, stuck);
      UnlinkedWithout(d, b, stuck, a[0].name);
    }
  }

  lemma {:induction false} MatchingUnlinked(d: Directory, victims: Directory, stuck: set<string>, suffix: string)
    requires forall v | v in victims :: !EndsWith(v.name, suffix)
    ensures Matching(Unlinked(d, victims, stuck), suffix) == Matching(d, suffix)
    decreases |victims|
  {
    if victims != [] && victims[0].name !in stuck {
      var v := victims[0];
      assert v in victims && forall x | x in victims[1..] :: x in victims;
      MatchingUnlinked(Without(d, v.name), victims[1..], stuck, suffix);
      MatchingWithout(d, v.name, suffix);
      MatchingFiles(d, suffix);
      WithoutOther(Matching(d, suffix), v.name);
    }
  }

  lemma ExcessEndsWith(d: Directory, suffix: string, limit: Option<int>)
    ensures forall f | f in Excess(NewestFirst(Matching(d, suffix)), limit) :: EndsWith(f.name, suffix)
  {
    var files := Matching(d, suffix);
    var sorted := NewestFirst(files);
    MatchingFiles(d, suffix);
    NewestFirstSorts(files);
    ExcessIsTail(sorted, limit);
    forall f | f in Excess(sorted, limit) ensures EndsWith(f.name, suffix) {
      assert f in multiset(sorted);
      assert f in multiset(files);
    }
  }

  /** A file is of one kind only, so the two policies do not get in each other's way: their order does not matter. */
  lemma PoliciesCommute(d: Directory, plain: Option<int>, zipped: Option<int>, stuck: set<string>)
    ensures Enforced(Enforced(d, ".sql", plain, stuck), ".sql.gz", zipped, stuck)
      == Enforced(Enforced(d, ".sql.gz", zipped, stuck), ".sql", plain, stuck)
  {
    var a := Excess(NewestFirst(Matching(d, ".sql")), plain);
    var b := Excess(NewestFirst(Matching(d, ".sql.gz")), zipped);
    ExcessEndsWith(d, ".sql", plain);
    ExcessEndsWith(d, ".sql.gz", zipped);
    forall v | v in a ensures !EndsWith(v.name, ".sql.gz") {
      OneEnding(v.name);
    }
    forall v | v in b ensures !EndsWith(v.name, ".sql") {
      OneEnding(v.name);
    }
    MatchingUnlinked(d, a, stuck, ".sql.gz");
    MatchingUnlinked(d, b, stuck, ".sql");
    UnlinkedCommutes(d, a, b, stuck);
  }

  lemma OneEnding(name: string)
    ensures !(EndsWith(name, ".sql") && EndsWith(name, ".sql.gz"))
  {
    var n := |name|;
    if EndsWith(name, ".sql") {
      assert name[n - 1] == name[n - 4..][3] == 'l';
    }
    if EndsWith(name, ".sql.gz") {
      assert name[n - 1] == name[n - 7..][6] == 'z';
    }
  }

  ghost predicate StuckUpTo(victims: Directory, stuck: set<string>, k: nat)
    requires k < |victims|
  {
    exists i | 0 <= i <= k :: victims[i].name in stuck
  }

  lemma StuckLater(victims: Directory, stuck: set<string>, k: nat)
    requires 0 < k < |victims| && victims[0].name !in stuck
    ensures StuckUpTo(victims, stuck, k) <==> StuckUpTo(victims[1..], stuck, k - 1)
  {
    if StuckUpTo(victims, stuck, k) {
      var i :| 0 <= i <= k && victims[i].name in stuck;
      assert victims[1..][i - 1].name in stuck;
    }
  }

  lemma RestDistinct(d: Directory, victims: Directory)
    requires Distinct(d) && Distinct(victims) && victims != [] && forall v | v in victims :: v in d
    ensures var d', rest := Without(d, victims[0].name), victims[1..];
      && Distinct(d') && Distinct(rest) && (forall v | v in rest :: v in d')
      && forall f :: f in d' <==> f in d && f.name != victims[0].name
  {
    var rest := victims[1..];
    WithoutOne(d, victims[0].name);
    forall v | v in rest ensures v in victims && v.name != victims[0].name {
      var i :| 0 <= i < |rest| && rest[i] == v;
      assert victims[i + 1] == v;
    }
  }

  lemma {:induction false} UnlinkedUntilStuck(d: Directory, victims: Directory, stuck: set<string>, k: nat)
    requires Distinct(d) && Distinct(victims) && (forall v | v in victims :: v in d) && k < |victims|
    ensures victims[k] in Unlinked(d, victims, stuck) <==> StuckUpTo(victims, stuck, k)
    decreases |victims|
  {
    hide Distinct, Without, StuckUpTo;
    var v, rest := victims[0], victims[1..];
    if v.name in stuck {
      StuckAtFirst(victims, stuck, k);
      assert victims[k] in victims;
    } else {
      RestDistinct(d, victims);
      if k == 0 {
        NotStuckAtFirst(victims, stuck);
        StuckLeavesMore(Without(d, v.name), rest, stuck);
      } else {
        StuckLater(victims, stuck, k);
        UnlinkedUntilStuck(Without(d, v.name), rest, stuck, k - 1);
      }
    }
  }

  lemma StuckAtFirst(victims: Directory, stuck: set<string>, k: nat)
    requires k < |victims| && victims[0].name in stuck
    ensures StuckUpTo(victims, stuck, k)
  {
  }

  lemma NotStuckAtFirst(victims: Directory, stuck: set<string>)
    requires victims != [] && victims[0].name !in stuck
    ensures !StuckUpTo(victims, stuck, 0)
  {
  }

  /** Deletion goes from the newest of the excess to the oldest and stops at the first file that cannot be deleted. */
  lemma DeletionStopsAtFirstFailure(d: Directory, suffix: string, limit: Option<int>, stuck: set<string>, k: nat)
    requires Distinct(d) && k < |Excess(NewestFirst(Matching(d, suffix)), limit)|
    ensures var gone := Excess(NewestFirst(Matching(d, suffix)), limit);
      gone[k] in Enforced(d, suffix, limit, stuck) <==> exists i | 0 <= i <= k :: gone[i].name in stuck
  {
    var kept, gone := Parts(d, suffix, limit);
    MatchingFiles(d, suffix);
    forall v | v in gone ensures v in d {
      assert v in kept + gone;
    }
    forall i, j | 0 <= i < j < |gone| ensures gone[i].name != gone[j].name {
      assert gone[i] == (kept + gone)[|kept| + i] && gone[j] == (kept + gone)[|kept| + j];
    }
    UnlinkedUntilStuck(d, gone, stuck, k);
  }
}
