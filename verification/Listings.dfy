/** Listing a folder is a range scan over the ordered object table. */
module Listings {
  import opened Wrappers
  import opened Positional
  import opened Keys
  import opened Store
  import opened Tree
  import opened AbstractFs

  datatype ObjectType = File | FolderType | SymlinkType | FifoType | SocketType

  /** `obj_type` as written: its first pattern names a constant that does not exist, so it matches
      everything, and every object is reported as a file. */
  function ObjType(kind: Kind): ObjectType
  {
    File
  }

  datatype Entry = Entry(name: Bytes, objectType: ObjectType)

  predicate Ascending(keys: seq<Bytes>)
  {
    forall i, j :: 0 <= i < j < |keys| ==> LexLess(keys[i], keys[j])
  }

  /** The keys that the ordered table yields for the scan, in its order. */
  ghost predicate Scan(fs: Table, p: U64, keys: seq<Bytes>)
    requires p + 1 < U64_LIMIT
  {
    Ascending(keys) && forall k: Bytes :: k in keys <==> k in fs && InRange(p, k)
  }

  /** A scan that has yielded `keys` and has `rest` to come. */
  ghost predicate Partway(fs: Table, p: U64, keys: seq<Bytes>, rest: set<Bytes>)
    requires p + 1 < U64_LIMIT
  {
    && Ascending(keys)
    && (forall k: Bytes :: k in keys || k in rest <==> k in fs && InRange(p, k))
    && (forall j, k :: j in keys && k in rest ==> LexLess(j, k))
  }

  function Entries(fs: Table, keys: seq<Bytes>): (r: seq<Entry>)
    requires forall k :: k in keys ==> k in fs
    ensures |r| == |keys|
  {
    seq(|keys|, i requires 0 <= i < |keys| => Entry(fs[keys[i]].name, ObjType(fs[keys[i]].kind)))
  }

  /** What list answers for a folder with key id `p`. */
  ghost predicate Listed(fs: Table, p: U64, entries: seq<Entry>)
    requires p + 1 < U64_LIMIT
  {
    exists keys: seq<Bytes> :: Scan(fs, p, keys) && entries == Entries(fs, keys)
  }

  lemma {:induction false} LeastExists(keys: set<Bytes>) returns (least: Bytes)
    requires keys != {}
    ensures least in keys && forall k :: k in keys ==> LexLeq(least, k)
    decreases |keys|
  {
    var k :| k in keys;
    least := k;
    if keys != {k} {
      least := LeastExists(keys - {k});
      LexLessTotal(least, k);
      if LexLess(k, least) {
        forall j | j in keys && j != k
          ensures LexLeq(k, j)
        {
          assert j in keys - {k};
          if j != least {
            LexLessTransitive(k, least, j);
          }
        }
        least := k;
      }
    }
  }

  lemma ScanStep(fs: Table, p: U64, keys: seq<Bytes>, rest: set<Bytes>, least: Bytes)
    requires p + 1 < U64_LIMIT && Partway(fs, p, keys, rest)
    requires least in rest && forall k :: k in rest ==> LexLeq(least, k)
    ensures Partway(fs, p, keys + [least], rest - {least})
  {
    hide InRange;
    var keys', rest' := keys + [least], rest - {least};
    forall k: Bytes
      ensures k in keys' || k in rest' <==> k in keys || k in rest
    {
      assert k in keys' <==> k in keys || k == least;
    }
    assert forall j :: j in keys' ==> j in keys || j == least;
  }

  lemma PushEntry(fs: Table, keys: seq<Bytes>, key: Bytes)
    requires key in fs && forall k :: k in keys ==> k in fs
    ensures forall k :: k in keys + [key] ==> k in fs
    ensures Entries(fs, keys + [key]) == Entries(fs, keys) + [Entry(fs[key].name, ObjType(fs[key].kind))]
  {
    assert forall k :: k in keys + [key] ==> k in keys || k == key;
  }

  /** The order determines the scan, so the answer is a function of the table. */
  lemma {:induction false} ScanUnique(fs: Table, p: U64, a: seq<Bytes>, b: seq<Bytes>)
    requires p + 1 < U64_LIMIT && Scan(fs, p, a) && Scan(fs, p, b)
    ensures a == b
  {
    SameAscending(a, b);
  }

  lemma {:induction false} SameAscending(a: seq<Bytes>, b: seq<Bytes>)
    requires Ascending(a) && Ascending(b) && forall k: Bytes :: k in a <==> k in b
    ensures a == b
    decreases |a|
  {
    assert a != [] ==> a[0] in a;
    assert b != [] ==> b[0] in b;
    if a != [] {
      assert a[0] in a && a[0] in b;
      assert b[0] in b && b[0] in a;
      if a[0] != b[0] {
        LexLessTransitive(a[0], b[0], a[0]);
        LexLessIrreflexive(a[0]);
      }
      forall k: Bytes | k in a[1..] || k in b[1..]
        ensures k in a[1..] && k in b[1..]
      {
        LexLessIrreflexive(a[0]);
        assert k in a && k in b;
        assert k != a[0];
      }
      SameAscending(a[1..], b[1..]);
      assert a == [a[0]] + a[1..] && b == [b[0]] + b[1..];
    }
  }

  lemma {:induction false} ScanGoesOn(fs: Table, p: U64, keys: seq<Bytes>, rest: set<Bytes>) returns (all: seq<Bytes>)
    requires p + 1 < U64_LIMIT && Partway(fs, p, keys, rest)
    ensures Scan(fs, p, all)
    decreases |rest|
  {
    all := keys;
    if rest != {} {
      var least := LeastExists(rest);
      ScanStep(fs, p, keys, rest, least);
      all := ScanGoesOn(fs, p, keys + [least], rest - {least});
    }
  }

  /** There is exactly one answer. */
  lemma OneListing(fs: Table, p: U64)
    requires p + 1 < U64_LIMIT
    ensures exists entries: seq<Entry> :: Listed(fs, p, entries)
    ensures forall a: seq<Entry>, b: seq<Entry> :: Listed(fs, p, a) && Listed(fs, p, b) ==> a == b
  {
    var rest := set k | k in fs && InRange(p, k);
    assert Partway(fs, p, [], rest);
    var keys := ScanGoesOn(fs, p, [], rest);
    ScanInTable(fs, p, keys);
    assert Listed(fs, p, Entries(fs, keys));
    forall a: seq<Entry>, b: seq<Entry> | Listed(fs, p, a) && Listed(fs, p, b)
      ensures a == b
    {
      var j: seq<Bytes> :| Scan(fs, p, j) && a == Entries(fs, j);
      var k: seq<Bytes> :| Scan(fs, p, k) && b == Entries(fs, k);
      ScanUnique(fs, p, j, k);
    }
  }

  /** What list answers, once its walk has ended. */
  ghost function ListFolder(fs: Table, walked: Result<U64, Error>): Result<seq<Entry>, Error>
  {
    match walked
    case Err(e) => Err(e)
    case Ok(id) =>
      if id + 1 >= U64_LIMIT then Err(Overflow)
      else
        OneListing(fs, id);
        var entries: seq<Entry> :| Listed(fs, id, entries);
        Ok(entries)
  }

  ghost function List(c: Config, s: State, path: Path): Result<seq<Entry>, Error>
  {
    ListFolder(s.fs, Walk(c.host, s.fs, ListPath(c, path)))
  }

  /** A child of a reachable folder is shown at the folder's path followed by the child's name
      exactly when its key is in the scan. */
  lemma ScanHasChild(h: Host, s: State, p: Path, keys: seq<Bytes>, id: U64, name: Bytes)
    requires Walk(h, s.fs, p) == Ok(id) && id + 1 < U64_LIMIT && Scan(s.fs, id, keys)
    ensures p + [name] in View(h, s) <==> MakeKey(id, name) in keys
  {
    var q, key := p + [name], MakeKey(id, name);
    assert Front(q) == p && Last(q) == name;
    assert Locate(h, s.fs, q) == Ok(key);
    ViewAt(h, s, q);
    MakeKeyParts(id, name);
    RangeIsChildren(id, key);
  }

  lemma ScannedKey(fs: Table, keys: seq<Bytes>, id: U64, k: Bytes)
    requires id + 1 < U64_LIMIT && Scan(fs, id, keys) && k in keys && |k| >= 8
    ensures k == MakeKey(id, k[8..])
  {
    RangeIsChildren(id, k);
    MakeKeyOnto(k);
  }

  /** The scan of a reachable folder yields each of its direct children once, in the order of
      their names, and nothing else: no grandchild and no neighbour's child. */
  lemma ScanIsChildren(h: Host, s: State, p: Path, keys: seq<Bytes>, id: U64)
    requires Forest(h, s.fs, s.seqno) && Walk(h, s.fs, p) == Ok(id)
    requires id + 1 < U64_LIMIT && Scan(s.fs, id, keys)
    ensures forall name: Bytes :: p + [name] in View(h, s) <==> MakeKey(id, name) in keys
    ensures forall k :: k in keys ==> |k| >= 8 && k == MakeKey(id, k[8..])
    ensures forall i, j :: 0 <= i < j < |keys| ==>
              |keys[i]| >= 8 && |keys[j]| >= 8 && LexLess(keys[i][8..], keys[j][8..])
  {
    hide View, Walk, MakeKey, Scan, ParentId, DistinctIds;
    forall name: Bytes
      ensures p + [name] in View(h, s) <==> MakeKey(id, name) in keys
    {
      ScanHasChild(h, s, p, keys, id, name);
    }
    ScanInTable(s.fs, id, keys);
    forall k | k in keys
      ensures |k| >= 8 && k == MakeKey(id, k[8..])
    {
      ScannedKey(s.fs, keys, id, k);
    }
    forall i, j | 0 <= i < j < |keys|
      ensures |keys[i]| >= 8 && |keys[j]| >= 8 && LexLess(keys[i][8..], keys[j][8..])
    {
      ScanOrder(s.fs, id, keys, i, j);
    }
  }

  /** The names in the keys of a scan, and what the objects are listed as. */
  lemma ScannedNames(h: Host, s: State, p: Path, id: U64, keys: seq<Bytes>) returns (names: seq<Bytes>)
    requires Forest(h, s.fs, s.seqno) && Walk(h, s.fs, p) == Ok(id)
    requires id + 1 < U64_LIMIT && Scan(s.fs, id, keys)
    ensures |names| == |keys| && Ascending(names)
    ensures forall name: Bytes :: name in names <==> p + [name] in View(h, s)
    ensures forall i :: 0 <= i < |names| ==>
              keys[i] in s.fs && p + [names[i]] in View(h, s) && View(h, s)[p + [names[i]]].name == s.fs[keys[i]].name
  {
    hide View, Walk, MakeKey, Scan, ParentId, DistinctIds, LexLess;
    ScanIsChildren(h, s, p, keys, id);
    ScanInTable(s.fs, id, keys);
    assert forall i :: 0 <= i < |keys| ==> keys[i] in keys;
    names := seq(|keys|, i requires 0 <= i < |keys| => keys[i][8..]);
    forall i | 0 <= i < |names|
      ensures p + [names[i]] in View(h, s) && View(h, s)[p + [names[i]]].name == s.fs[keys[i]].name
    {
      ChildShown(h, s, p, id, names[i]);
    }
    forall name: Bytes | MakeKey(id, name) in keys
      ensures name in names
    {
      var i :| 0 <= i < |keys| && keys[i] == MakeKey(id, name);
      MakeKeyInjective(id, name, id, names[i]);
      assert names[i] == name;
    }
  }

  /** So listing a reachable folder shows what lies directly in it: each object once, in the order
      of the normalised names, under the name that it was given. */
  lemma ListedIsChildren(h: Host, s: State, p: Path, id: U64, entries: seq<Entry>) returns (names: seq<Bytes>)
    requires Forest(h, s.fs, s.seqno) && Walk(h, s.fs, p) == Ok(id)
    requires id + 1 < U64_LIMIT && Listed(s.fs, id, entries)
    ensures |names| == |entries| && Ascending(names)
    ensures forall name: Bytes :: name in names <==> p + [name] in View(h, s)
    ensures forall i :: 0 <= i < |names| ==>
              p + [names[i]] in View(h, s) && entries[i] == Entry(View(h, s)[p + [names[i]]].name, File)
  {
    hide View, Walk, DistinctIds, Ascending, InRange;
    var keys: seq<Bytes> :| Scan(s.fs, id, keys) && entries == Entries(s.fs, keys);
    names := ScannedNames(h, s, p, id, keys);
  }

  /** The entries are the objects directly below a path, each once, in the order of their names. */
  ghost predicate Shows(v: Fs, p: Path, entries: seq<Entry>)
  {
    exists names: seq<Bytes> :: ShowsNames(v, p, entries, names)
  }

  ghost predicate ShowsNames(v: Fs, p: Path, entries: seq<Entry>, names: seq<Bytes>)
  {
    && |names| == |entries| && Ascending(names)
    && (forall name: Bytes :: name in names <==> p + [name] in v)
    && (forall i :: 0 <= i < |names| ==>
          p + [names[i]] in v && entries[i] == Entry(v[p + [names[i]]].name, File))
  }

  lemma ListedShows(h: Host, s: State, p: Path, id: U64, entries: seq<Entry>)
    requires Forest(h, s.fs, s.seqno) && Walk(h, s.fs, p) == Ok(id)
    requires id + 1 < U64_LIMIT && Listed(s.fs, id, entries)
    ensures Shows(View(h, s), p, entries)
  {
    hide View, Walk, Listed, Forest, Ascending;
    var names := ListedIsChildren(h, s, p, id, entries);
    assert ShowsNames(View(h, s), p, entries, names);
  }

  /** The listing that the file system on paths gives. */
  ghost predicate AbsLists(v: Fs, p: Path, r: Result<seq<Entry>, Error>)
  {
    match AbsWalk(v, p)
    case Err(e) => r == Err(e)
    case Ok(_) => r.Ok? && Shows(v, p, r.value)
  }

  /** Only the folder with the last number of all cannot be listed. */
  lemma ListOverflowsIff(c: Config, s: State, path: Path)
    ensures List(c, s, path) == Err(Overflow) <==>
            Walk(c.host, s.fs, ListPath(c, path)) == Ok(U64_LIMIT - 1)
  {
    hide Walk;
    WalkErrors(c.host, s.fs, ListPath(c, path));
  }

  lemma FolderNumber(h: Host, s: State, p: Path)
    requires Forest(h, s.fs, s.seqno) && Walk(h, s.fs, p) == Ok(U64_LIMIT - 1)
    ensures s.seqno + 1 >= U64_LIMIT
  {
    WalkIsFind(h, s.fs, p);
    KeyIdOfMax(h);
    KeyIdInjective(h, Find(h, s.fs, p).value.id, U64_LIMIT - 1);
  }

  /** So as long as numbers last, list answers as the file system on paths does. */
  lemma ListRefines(c: Config, s: State, path: Path)
    requires Forest(c.host, s.fs, s.seqno) && s.seqno + 1 < U64_LIMIT
    ensures AbsLists(View(c.host, s), ListPath(c, path), List(c, s, path))
  {
    hide View, Walk, ListPath, Forest, Shows;
    var p := ListPath(c, path);
    WalkRefines(c.host, s, p);
    if Walk(c.host, s.fs, p).Ok? {
      if Walk(c.host, s.fs, p) == Ok(U64_LIMIT - 1) {
        FolderNumber(c.host, s, p);
      }
      ListedShows(c.host, s, p, Walk(c.host, s.fs, p).value, List(c, s, path).value);
    }
  }

  lemma ChildShown(h: Host, s: State, p: Path, id: U64, name: Bytes)
    requires Walk(h, s.fs, p) == Ok(id) && MakeKey(id, name) in s.fs
    ensures p + [name] in View(h, s) && View(h, s)[p + [name]].name == s.fs[MakeKey(id, name)].name
  {
    var q := p + [name];
    assert Front(q) == p && Last(q) == name;
    ViewAt(h, s, q);
  }

  lemma ScanInTable(fs: Table, id: U64, keys: seq<Bytes>)
    requires id + 1 < U64_LIMIT && Scan(fs, id, keys)
    ensures forall k :: k in keys ==> k in fs
  {
  }

  lemma ScanOrder(fs: Table, id: U64, keys: seq<Bytes>, i: nat, j: nat)
    requires id + 1 < U64_LIMIT && Scan(fs, id, keys) && i < j < |keys| && |keys[i]| >= 8 && |keys[j]| >= 8
    ensures LexLess(keys[i][8..], keys[j][8..])
  {
    assert keys[i] in keys && keys[j] in keys;
    ScannedKey(fs, keys, id, keys[i]);
    ScannedKey(fs, keys, id, keys[j]);
    LexLessAfter(Be(id), keys[i][8..], keys[j][8..]);
  }

  lemma {:induction false} LexLessAfter(prefix: seq<int>, a: seq<int>, b: seq<int>)
    ensures LexLess(prefix + a, prefix + b) <==> LexLess(a, b)
  {
    if prefix == [] {
      assert prefix + a == a && prefix + b == b;
    } else {
      LexLessAfter(prefix[1..], a, b);
      assert (prefix + a)[1..] == prefix[1..] + a && (prefix + b)[1..] == prefix[1..] + b;
    }
  }
}
