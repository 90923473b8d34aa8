/**
 The file trees on remote hosts. A location is a host and the segments of a path on it, so a change at one location
 shows at every location above and below it.
 */
module RemoteTree {
  import opened Outcomes

  datatype Tree = File(bytes: string) | Dir(entries: map<string, Tree>)

  type Segments = seq<string>

  datatype Location = Location(host: string, path: Segments)

  type Disk = map<string, Tree>

  // ----- One tree -----

  function Lookup(t: Tree, path: Segments): Option<Tree>
    decreases |path|
  {
    if path == [] then Some(t)
    else if t.Dir? && path[0] in t.entries then Lookup(t.entries[path[0]], path[1..])
    else None
  }

  // The tree with something else, or nothing, at a path; missing directories on the way are made, files are not entered.
  function Replace(t: Tree, path: Segments, x: Option<Tree>): (out: Tree)
    requires path != []
    ensures t.Dir? ==> out.Dir?
    decreases |path|
  {
    if t.File? then t
    else if |path| == 1 then
      match x
      case None => Dir(t.entries - {path[0]})
      case Some(tree) => Dir(t.entries[path[0] := tree])
    else if path[0] in t.entries then Dir(t.entries[path[0] := Replace(t.entries[path[0]], path[1..], x)])
    else if x.None? then t
    else Dir(t.entries[path[0] := Replace(Dir(map[]), path[1..], x)])
  }

  predicate Prefix(a: Segments, b: Segments) {
    |a| <= |b| && b[..|a|] == a
  }

  lemma PrefixCons(a: Segments, b: Segments)
    requires a != [] && b != []
    ensures Prefix(a, b) <==> a[0] == b[0] && Prefix(a[1..], b[1..])
  {
    assert a == [a[0]] + a[1..] && b == [b[0]] + b[1..];
    if a[0] == b[0] && Prefix(a[1..], b[1..]) {
      assert b[..|a|] == [b[0]] + b[1..][..|a| - 1];
    }
  }

  lemma {:induction false} ReplaceElsewhere(t: Tree, path: Segments, x: Option<Tree>, m: Segments)
    requires path != [] && !Prefix(path, m) && !Prefix(m, path)
    ensures Lookup(Replace(t, path, x), m) == Lookup(t, m)
    decreases |path|
  {
    assert m != [];
    PrefixCons(path, m);
    PrefixCons(m, path);
    if t.Dir? && path[0] == m[0] {
      assert path[1..] != [];
      if path[0] in t.entries {
        ReplaceElsewhere(t.entries[path[0]], path[1..], x, m[1..]);
      } else if x.Some? {
        ReplaceElsewhere(Dir(map[]), path[1..], x, m[1..]);
        assert m[1..] != [];
      }
    }
  }

  lemma {:induction false} NothingAfterRemoval(t: Tree, path: Segments)
    requires path != []
    ensures Lookup(Replace(t, path, None), path) == None
    decreases |path|
  {
    if t.Dir? && |path| > 1 && path[0] in t.entries {
      NothingAfterRemoval(t.entries[path[0]], path[1..]);
    }
  }

  ghost predicate NoFileOnTheWay(t: Tree, path: Segments) {
    forall n :: 0 <= n < |path| ==> Lookup(t, path[..n]) == None || Lookup(t, path[..n]).value.Dir?
  }

  lemma {:induction false} WrittenIsThere(t: Tree, path: Segments, tree: Tree)
    requires path != [] && NoFileOnTheWay(t, path)
    ensures Lookup(Replace(t, path, Some(tree)), path) == Some(tree)
    decreases |path|
  {
    assert path[..0] == [] && Lookup(t, path[..0]) == Some(t);
    if |path| > 1 {
      var sub := if path[0] in t.entries then t.entries[path[0]] else Dir(map[]);
      forall n | 0 <= n < |path[1..]|
        ensures Lookup(sub, path[1..][..n]) == None || Lookup(sub, path[1..][..n]).value.Dir?
      {
        assert path[..n + 1][0] == path[0] && path[..n + 1][1..] == path[1..][..n];
        assert path[0] in t.entries ==> Lookup(t, path[..n + 1]) == Lookup(sub, path[1..][..n]);
      }
      WrittenIsThere(sub, path[1..], tree);
    } else {
      assert path[1..] == [];
    }
  }

  lemma {:induction false} LookupChain(t: Tree, a: Segments, b: Segments)
    requires Prefix(a, b)
    ensures Lookup(t, b) == match Lookup(t, a) case None => None case Some(sub) => Lookup(sub, b[|a|..])
    decreases |a|
  {
    if a == [] {
      assert b[0..] == b;
    } else {
      PrefixCons(a, b);
      if t.Dir? && a[0] in t.entries {
        LookupChain(t.entries[a[0]], a[1..], b[1..]);
        assert b[1..][|a| - 1..] == b[|a|..];
      }
    }
  }

  // ----- Disks -----

  function At(disk: Disk, location: Location): Option<Tree> {
    if location.host in disk then Lookup(disk[location.host], location.path) else None
  }

  function Put(disk: Disk, location: Location, x: Option<Tree>): Disk
    requires location.path != []
  {
    if location.host in disk then disk[location.host := Replace(disk[location.host], location.path, x)] else disk
  }

  // Neither lies inside the other.
  predicate Apart(a: Location, b: Location) {
    a.host != b.host || (!Prefix(a.path, b.path) && !Prefix(b.path, a.path))
  }

  // What is written at a place without a file on the way there is what lies there.
  lemma PutShows(disk: Disk, location: Location, tree: Tree)
    requires location.path != [] && location.host in disk && NoFileOnTheWay(disk[location.host], location.path)
    ensures At(Put(disk, location, Some(tree)), location) == Some(tree)
  {
    WrittenIsThere(disk[location.host], location.path, tree);
  }

  lemma PutElsewhere(disk: Disk, location: Location, x: Option<Tree>, other: Location)
    requires location.path != [] && Apart(location, other)
    ensures At(Put(disk, location, x), other) == At(disk, other)
  {
    if location.host == other.host && location.host in disk {
      ReplaceElsewhere(disk[location.host], location.path, x, other.path);
    }
  }

  lemma NothingThere(disk: Disk, location: Location)
    requires location.path != []
    ensures At(Put(disk, location, None), location) == None
  {
    if location.host in disk {
      NothingAfterRemoval(disk[location.host], location.path);
    }
  }

  // What lies below follows from what lies above.
  lemma AtBelow(disk: Disk, above: Location, below: Location)
    requires above.host == below.host && Prefix(above.path, below.path)
    ensures At(disk, below) == match At(disk, above) case None => None case Some(sub) => Lookup(sub, below.path[|above.path|..])
  {
    if above.host in disk {
      LookupChain(disk[above.host], above.path, below.path);
    }
  }

  // A removal that takes something away shows at every location inside the removed one and around it: nothing is left
  // inside, and what was a directory around it is another tree now.
  lemma RemovalShows(disk: Disk, location: Location, other: Location)
    requires location.path != [] && At(disk, location).Some? && !Apart(location, other)
    ensures Prefix(location.path, other.path) ==> At(Put(disk, location, None), other) == None
    ensures !Prefix(location.path, other.path) ==> At(Put(disk, location, None), other) != At(disk, other)
  {
    var disk' := Put(disk, location, None);
    NothingThere(disk, location);
    if Prefix(location.path, other.path) {
      AtBelow(disk', location, other);
    } else {
      AtBelow(disk, other, location);
      AtBelow(disk', other, location);
    }
  }

  lemma {:induction false} ReplaceKeepsDirectories(t: Tree, path: Segments, x: Option<Tree>, m: Segments)
    requires |m| < |path| && Prefix(m, path)
    requires Lookup(t, m).Some? && Lookup(t, m).value.Dir?
    ensures Lookup(Replace(t, path, x), m).Some? && Lookup(Replace(t, path, x), m).value.Dir?
    decreases |path|
  {
    if m != [] {
      PrefixCons(m, path);
      ReplaceKeepsDirectories(t.entries[path[0]], path[1..], x, m[1..]);
    }
  }

  // Whatever lies around something is a directory, before and after that is removed.
  lemma AroundIsDirectory(disk: Disk, location: Location, around: Location)
    requires location.host == around.host && |around.path| < |location.path| && Prefix(around.path, location.path)
    requires At(disk, location).Some?
    ensures At(disk, around).Some? && At(disk, around).value.Dir?
    ensures At(Put(disk, location, None), around).Some? && At(Put(disk, location, None), around).value.Dir?
  {
    AtBelow(disk, around, location);
    ReplaceKeepsDirectories(disk[location.host], location.path, None, around.path);
  }
}
