/**
  The block registry: the `<name>.lua` files and `<name>/init.lua`
  directories under a list of directories, one block a name.
*/
module BlockRegistry {
  import opened Wrappers
  import StableSort

  // ----- names and entries -----

  /** The order of names: by character, a prefix first. */
  predicate NameLeq(a: string, b: string) {
    a == "" || (b != "" && (a[0] < b[0] || (a[0] == b[0] && NameLeq(a[1..], b[1..]))))
  }

  /** What is at a path: a file, a directory that holds an `init.lua` file or not, or neither. */
  datatype What = File | Directory(hasInit: bool) | Neither

  /** A directory entry; its file name is text, or is not UTF-8. */
  datatype Entry = Entry(fileName: string, utf8: bool, what: What)

  /** A script: the entry it comes from, and whether it is the entry's `init.lua`. */
  datatype Script = Script(dir: nat, fileName: string, init: bool)

  datatype Block = Block(name: string, path: Script)

  /** A path with the extension `lua`: something, a dot, `lua`. */
  predicate IsLuaFile(fileName: string) {
    |fileName| > 4 && fileName[|fileName| - 4..] == ".lua"
  }

  /** The block a directory entry is, if it is one. */
  function EntryPoint(dir: nat, e: Entry): Option<Block> {
    match e.what
    case File =>
      if IsLuaFile(e.fileName) && e.utf8
      then Some(Block(e.fileName[..|e.fileName| - 4], Script(dir, e.fileName, false))) else None
    case Directory(hasInit) =>
      if hasInit && e.utf8 then Some(Block(e.fileName, Script(dir, e.fileName, true))) else None
    case Neither => None
  }

  predicate ByFileName(a: Entry, b: Entry) {
    NameLeq(a.fileName, b.fileName)
  }

  predicate ByName(a: Block, b: Block) {
    NameLeq(a.name, b.name)
  }

  // ----- all entry points in order: the reference -----

  /** The entry points among sorted entries, in order. */
  function PointsOf(dir: nat, entries: seq<Entry>): seq<Block> {
    FilterMap((e: Entry) => EntryPoint(dir, e), entries)
  }

  /** One directory's, in path order; an unreadable directory has none. */
  function DirPoints(dir: nat, listing: Option<seq<Entry>>): seq<Block> {
    match listing
    case None => []
    case Some(entries) => PointsOf(dir, StableSort.Sort(ByFileName, entries))
  }

  /** Directory after directory, in the order given. */
  function PointsUpTo(dirs: seq<Option<seq<Entry>>>, n: nat): seq<Block>
    requires n <= |dirs|
  {
    if n == 0 then [] else PointsUpTo(dirs, n - 1) + DirPoints(n - 1, dirs[n - 1])
  }

  function Points(dirs: seq<Option<seq<Entry>>>): seq<Block> {
    PointsUpTo(dirs, |dirs|)
  }

  /** The first of a list with the name: the naive search. */
  function First(blocks: seq<Block>, name: string): Option<Block> {
    if blocks == [] then None
    else if blocks[0].name == name then Some(blocks[0])
    else First(blocks[1..], name)
  }

  // ----- the scan -----

  ghost predicate UniqueNames(blocks: seq<Block>) {
    forall i, j :: 0 <= i < j < |blocks| ==> blocks[i].name != blocks[j].name
  }

  ghost predicate Lacks(blocks: seq<Block>, name: string) {
    forall i :: 0 <= i < |blocks| ==> blocks[i].name != name
  }

  /** Blocks kept so far: no name twice, and a search among them finds what a search of everything met finds. */
  ghost predicate Keeps(blocks: seq<Block>, met: seq<Block>) {
    UniqueNames(blocks) && forall name :: First(blocks, name) == First(met, name)
  }

  lemma {:induction false} FirstAppend(a: seq<Block>, b: seq<Block>, name: string)
    ensures First(a + b, name) == if First(a, name).Some? then First(a, name) else First(b, name)
  {
    if a == [] {
      assert a + b == b;
    } else {
      FirstAppend(a[1..], b, name);
      assert (a + b)[1..] == a[1..] + b;
    }
  }

  /** None exactly when no block carries the name, else the first that does. */
  ghost predicate IsFirstMatch(blocks: seq<Block>, name: string, found: Option<Block>) {
    match found
    case None => Lacks(blocks, name)
    case Some(b) =>
      b.name == name && exists i :: 0 <= i < |blocks| && blocks[i] == b && Lacks(blocks[..i], name)
  }

  /** What a search finds. */
  lemma {:induction false} FirstMeans(blocks: seq<Block>, name: string)
    ensures IsFirstMatch(blocks, name, First(blocks, name))
  {
    if blocks != [] {
      var rest := blocks[1..];
      FirstMeans(rest, name);
      if blocks[0].name == name {
        assert Lacks(blocks[..0], name);
      } else if First(rest, name).Some? {
        var i :| 0 <= i < |rest| && rest[i] == First(rest, name).value && Lacks(rest[..i], name);
        assert blocks[..i + 1] == [blocks[0]] + rest[..i];
        assert blocks[i + 1] == rest[i] && Lacks(blocks[..i + 1], name);
      } else {
        forall i | 0 <= i < |blocks| ensures blocks[i].name != name {
          assert i > 0 ==> blocks[i] == rest[i - 1];
        }
      }
    }
  }

  /** One more entry point, kept if its name is new. */
  lemma {:induction false} KeepOne(blocks: seq<Block>, met: seq<Block>, b: Block)
    requires Keeps(blocks, met)
    ensures Keeps(if First(blocks, b.name).Some? then blocks else blocks + [b], met + [b])
  {
    forall name ensures First(met + [b], name) == if First(met, name).Some? then First(met, name) else First([b], name) {
      FirstAppend(met, [b], name);
    }
    forall name ensures First(blocks + [b], name) == if First(blocks, name).Some? then First(blocks, name) else First([b], name) {
      FirstAppend(blocks, [b], name);
    }
    forall name ensures First([b], name) == if b.name == name then Some(b) else None {
      assert [b][1..] == [];
    }
    FirstMeans(blocks, b.name);
  }

  /** One directory; one that cannot be read is skipped. */
  method ScanDir(dir: nat, listing: Option<seq<Entry>>, before: seq<Block>, ghost met: seq<Block>) returns (blocks: seq<Block>)
    requires Keeps(before, met)
    ensures Keeps(blocks, met + DirPoints(dir, listing))
  {
    if listing.None? {
      assert met + [] == met;
      return before;
    }
    var paths := StableSort.Sort(ByFileName, listing.value);
    ghost var point := (e: Entry) => EntryPoint(dir, e);
    ghost var seen := met;
    blocks := before;
    for i := 0 to |paths|
      invariant seen == met + FilterMap(point, paths[..i])
      invariant Keeps(blocks, seen)
    {
      var found := EntryPoint(dir, paths[i]);
      assert paths[..i + 1] == paths[..i] + [paths[i]];
      FilterMapAppend(point, paths[..i], [paths[i]]);
      assert FilterMap(point, [paths[i]]) == AsSeq(found) by { assert [paths[i]][1..] == []; }
      AppendAssociates(met, FilterMap(point, paths[..i]), AsSeq(found));
      if found.Some? {
        KeepOne(blocks, seen, found.value);
        if First(blocks, found.value.name).None? {
          blocks := blocks + [found.value];
        }
      } else {
        assert seen + [] == seen;
      }
      seen := seen + AsSeq(found);
    }
    assert paths[..|paths|] == paths;
  }

  /** `scan`, with the final sort by name. */
  method Scan(dirs: seq<Option<seq<Entry>>>) returns (blocks: seq<Block>)
    ensures forall i, j :: 0 <= i < j < |blocks| ==> NameLeq(blocks[i].name, blocks[j].name) && blocks[i].name != blocks[j].name
    ensures forall name :: First(blocks, name) == First(Points(dirs), name)
    ensures forall name :: IsFirstMatch(Points(dirs), name, First(blocks, name))
  {
    var kept: seq<Block> := [];
    for d := 0 to |dirs|
      invariant Keeps(kept, PointsUpTo(dirs, d))
    {
      kept := ScanDir(d, dirs[d], kept, PointsUpTo(dirs, d));
    }
    blocks := StableSort.Sort(ByName, kept);
    SortedKeeps(kept, blocks);
    forall name ensures IsFirstMatch(Points(dirs), name, First(blocks, name)) {
      FirstMeans(Points(dirs), name);
    }
  }

  // ----- the order of names -----

  lemma {:induction false} NameTotal(a: string, b: string)
    ensures NameLeq(a, b) || NameLeq(b, a)
    decreases |a|
  {
    if a != "" && b != "" && a[0] == b[0] { NameTotal(a[1..], b[1..]); }
  }

  lemma {:induction false} NameTransitive(a: string, b: string, c: string)
    requires NameLeq(a, b) && NameLeq(b, c)
    ensures NameLeq(a, c)
    decreases |a|
  {
    if a != "" && a[0] == b[0] && b[0] == c[0] { NameTransitive(a[1..], b[1..], c[1..]); }
  }

  lemma {:induction false} NameAntisymmetric(a: string, b: string)
    requires NameLeq(a, b) && NameLeq(b, a)
    ensures a == b
    decreases |a|
  {
    if a != "" {
      NameAntisymmetric(a[1..], b[1..]);
      assert a == [a[0]] + a[1..] && b == [b[0]] + b[1..];
    }
  }

  lemma ByNameIsPreorder()
    ensures StableSort.TotalPreorder(ByName)
  {
    forall x, y ensures ByName(x, y) || ByName(y, x) { NameTotal(x.name, y.name); }
    forall x, y, z | ByName(x, y) && ByName(y, z) ensures ByName(x, z) { NameTransitive(x.name, y.name, z.name); }
  }

  lemma ByFileNameIsPreorder()
    ensures StableSort.TotalPreorder(ByFileName)
  {
    forall x, y ensures ByFileName(x, y) || ByFileName(y, x) { NameTotal(x.fileName, y.fileName); }
    forall x, y, z | ByFileName(x, y) && ByFileName(y, z) ensures ByFileName(x, z) {
      NameTransitive(x.fileName, y.fileName, z.fileName);
    }
  }

  /** Listing a directory in another order changes nothing, names in it being distinct. */
  lemma ListingOrderDoesNotMatter(dir: nat, a: seq<Entry>, b: seq<Entry>)
    requires multiset(a) == multiset(b)
    requires forall i, j :: 0 <= i < j < |a| ==> a[i].fileName != a[j].fileName
    ensures DirPoints(dir, Some(a)) == DirPoints(dir, Some(b))
  {
    ByFileNameIsPreorder();
    forall i, j | 0 <= i < |a| && 0 <= j < |a| && ByFileName(a[i], a[j]) && ByFileName(a[j], a[i]) ensures a[i] == a[j] {
      NameAntisymmetric(a[i].fileName, a[j].fileName);
    }
    StableSort.SortIgnoresOrder(ByFileName, a, b);
  }

  // ----- sorting does not disturb the search -----

  lemma {:induction false} InsertKeepsFirst(b: Block, blocks: seq<Block>, name: string)
    requires Lacks(blocks, b.name)
    ensures First(StableSort.Insert(ByName, b, blocks), name) == First([b] + blocks, name)
  {
    assert ([b] + blocks)[1..] == blocks;
    if blocks != [] && !ByName(b, blocks[0]) {
      InsertKeepsFirst(b, blocks[1..], name);
      assert ([b] + blocks[1..])[1..] == blocks[1..];
      var tail := StableSort.Insert(ByName, b, blocks[1..]);
      assert ([blocks[0]] + tail)[1..] == tail;
    }
  }

  lemma {:induction false} SortKeepsFirst(blocks: seq<Block>, name: string)
    requires UniqueNames(blocks)
    ensures First(StableSort.Sort(ByName, blocks), name) == First(blocks, name)
  {
    if blocks != [] {
      var rest := StableSort.Sort(ByName, blocks[1..]);
      SortKeepsFirst(blocks[1..], name);
      RestDiffers(blocks);
      InsertKeepsFirst(blocks[0], rest, name);
      assert ([blocks[0]] + rest)[1..] == rest;
    }
  }

  lemma SortedKeeps(kept: seq<Block>, blocks: seq<Block>)
    requires UniqueNames(kept) && blocks == StableSort.Sort(ByName, kept)
    ensures forall i, j :: 0 <= i < j < |blocks| ==> NameLeq(blocks[i].name, blocks[j].name) && blocks[i].name != blocks[j].name
    ensures forall name :: First(blocks, name) == First(kept, name)
  {
    ByNameIsPreorder();
    StableSort.SortSorts(ByName, kept);
    SortUnique(kept);
    forall name ensures First(blocks, name) == First(kept, name) { SortKeepsFirst(kept, name); }
    forall i, j | 0 <= i < j < |blocks| ensures NameLeq(blocks[i].name, blocks[j].name) && blocks[i].name != blocks[j].name {
      assert ByName(blocks[i], blocks[j]);
    }
  }

  lemma {:induction false} InsertUnique(b: Block, blocks: seq<Block>)
    requires UniqueNames(blocks) && Lacks(blocks, b.name)
    ensures UniqueNames(StableSort.Insert(ByName, b, blocks))
  {
    if blocks != [] && !ByName(b, blocks[0]) {
      InsertUnique(b, blocks[1..]);
      var tail := StableSort.Insert(ByName, b, blocks[1..]);
      forall i | 0 <= i < |tail| ensures tail[i].name != blocks[0].name {
        StableSort.InsertKeepsElements(ByName, b, blocks[1..]);
        assert tail[i] in multiset(tail);
        assert tail[i] == b || tail[i] in blocks[1..];
      }
    }
  }

  lemma {:induction false} SortUnique(blocks: seq<Block>)
    requires UniqueNames(blocks)
    ensures UniqueNames(StableSort.Sort(ByName, blocks))
  {
    if blocks != [] {
      SortUnique(blocks[1..]);
      RestDiffers(blocks);
      InsertUnique(blocks[0], StableSort.Sort(ByName, blocks[1..]));
    }
  }

  lemma RestDiffers(blocks: seq<Block>)
    requires UniqueNames(blocks) && blocks != []
    ensures Lacks(StableSort.Sort(ByName, blocks[1..]), blocks[0].name)
  {
    var rest := StableSort.Sort(ByName, blocks[1..]);
    forall i | 0 <= i < |rest| ensures rest[i].name != blocks[0].name {
      StableSort.SortMembers(ByName, blocks[1..], rest[i]);
      var j :| 0 <= j < |blocks[1..]| && blocks[1..][j] == rest[i];
      assert blocks[0].name != blocks[j + 1].name;
    }
  }

  // ----- what is a block, and in what order -----

  /** An entry is a block exactly if it is `<name>.lua`, a file, or `<name>`, a directory with an `init.lua`. */
  lemma EntryPointMeans(dir: nat, e: Entry, b: Block)
    ensures EntryPoint(dir, e) == Some(b) <==>
            && e.utf8 && b.path.dir == dir && b.path.fileName == e.fileName
            && match e.what
               case File => b.name != "" && e.fileName == b.name + ".lua" && !b.path.init
               case Directory(hasInit) => hasInit && e.fileName == b.name && b.path.init
               case Neither => false
  {
    if e.what.File? {
      var n := |e.fileName| - 4;
      if IsLuaFile(e.fileName) { assert e.fileName == e.fileName[..n] + e.fileName[n..]; }
      if e.fileName == b.name + ".lua" { assert e.fileName[..n] == b.name && e.fileName[n..] == ".lua"; }
    }
  }

  /** Whether two names agree up to `i`, where the first ends or has the smaller character. */
  ghost predicate SmallerAt(a: string, b: string, i: nat) {
    && i <= |a| && i <= |b| && a[..i] == b[..i]
    && (i == |a| || (i < |b| && a[i] < b[i]))
  }

  /** The order of names is that of a dictionary. */
  lemma {:induction false} NameLeqMeans(a: string, b: string)
    ensures NameLeq(a, b) <==> exists i: nat :: SmallerAt(a, b, i)
    decreases |a|
  {
    if a == "" {
      assert SmallerAt(a, b, 0);
    } else if b != "" && a[0] == b[0] {
      NameLeqMeans(a[1..], b[1..]);
      forall i: nat ensures SmallerAt(a, b, i + 1) <==> SmallerAt(a[1..], b[1..], i) { SmallerAtTail(a, b, i); }
      assert !SmallerAt(a, b, 0);
      if i: nat :| SmallerAt(a, b, i) { assert SmallerAt(a[1..], b[1..], i - 1); }
      if i: nat :| SmallerAt(a[1..], b[1..], i) { assert SmallerAt(a, b, i + 1); }
    } else {
      if b != "" && a[0] < b[0] { assert SmallerAt(a, b, 0); }
      forall i: nat ensures SmallerAt(a, b, i) ==> i == 0 { DifferentHeads(a, b, i); }
    }
  }

  lemma DifferentHeads(a: string, b: string, i: nat)
    requires a != "" && (b == "" || a[0] != b[0])
    ensures SmallerAt(a, b, i) ==> i == 0
  {
    if 0 < i <= |a| && i <= |b| { assert a[..i][0] == a[0] && b[..i][0] == b[0]; }
  }

  lemma SmallerAtTail(a: string, b: string, i: nat)
    requires a != "" && b != "" && a[0] == b[0]
    ensures SmallerAt(a, b, i + 1) <==> SmallerAt(a[1..], b[1..], i)
  {
    if i + 1 <= |a| && i + 1 <= |b| {
      assert a[..i + 1] == [a[0]] + a[1..][..i];
      assert b[..i + 1] == [b[0]] + b[1..][..i];
      assert a[..i + 1][1..] == a[1..][..i];
      assert b[..i + 1][1..] == b[1..][..i];
    }
  }

  /** One entry point stands before another: in an earlier directory, or in the same one under a file name no larger. */
  ghost predicate Before(a: Block, b: Block) {
    a.path.dir < b.path.dir || (a.path.dir == b.path.dir && NameLeq(a.path.fileName, b.path.fileName))
  }

  ghost predicate PointIn(dir: nat, entries: seq<Entry>, b: Block) {
    exists e :: e in entries && EntryPoint(dir, e) == Some(b)
  }

  /** An entry point of one of the first `n` directories. */
  ghost predicate PointBelow(dirs: seq<Option<seq<Entry>>>, n: nat, b: Block)
    requires n <= |dirs|
  {
    exists d: nat :: d < n && dirs[d].Some? && PointIn(d, dirs[d].value, b)
  }

  lemma PointsOfMean(dir: nat, entries: seq<Entry>, b: Block)
    ensures b in PointsOf(dir, entries) <==> PointIn(dir, entries, b)
  {
    var point, ps := (e: Entry) => EntryPoint(dir, e), PointsOf(dir, entries);
    var at := FilterMapMeans(point, entries);
    if b in ps {
      var i :| 0 <= i < |ps| && ps[i] == b;
      assert point(entries[at[i]]) == Some(b) && entries[at[i]] in entries;
    }
    if PointIn(dir, entries, b) {
      var e :| e in entries && EntryPoint(dir, e) == Some(b);
      var k :| 0 <= k < |entries| && entries[k] == e;
      assert point(entries[k]).Some? && k in at;
      var i :| 0 <= i < |at| && at[i] == k;
      assert ps[i] == b;
    }
  }

  lemma DirPointsMean(dir: nat, entries: seq<Entry>, b: Block)
    ensures b in DirPoints(dir, Some(entries)) <==> PointIn(dir, entries, b)
  {
    var sorted := StableSort.Sort(ByFileName, entries);
    PointsOfMean(dir, sorted, b);
    forall e ensures e in sorted <==> e in entries { StableSort.SortMembers(ByFileName, entries, e); }
  }

  ghost predicate InOrder(ps: seq<Block>) {
    forall i, j :: 0 <= i < j < |ps| ==> Before(ps[i], ps[j])
  }

  lemma PointsOfOrder(dir: nat, entries: seq<Entry>)
    requires StableSort.Sorted(ByFileName, entries)
    ensures InOrder(PointsOf(dir, entries))
  {
    var point, ps := (e: Entry) => EntryPoint(dir, e), PointsOf(dir, entries);
    var at := FilterMapMeans(point, entries);
    forall i | 0 <= i < |ps| ensures ps[i].path.dir == dir && ps[i].path.fileName == entries[at[i]].fileName {
      assert point(entries[at[i]]) == Some(ps[i]);
      EntryPointMeans(dir, entries[at[i]], ps[i]);
    }
    forall i, j | 0 <= i < j < |ps| ensures Before(ps[i], ps[j]) {
      assert ByFileName(entries[at[i]], entries[at[j]]);
    }
  }

  lemma DirPointsOrder(dir: nat, listing: Option<seq<Entry>>)
    ensures InOrder(DirPoints(dir, listing))
  {
    if listing.Some? {
      ByFileNameIsPreorder();
      StableSort.SortSorts(ByFileName, listing.value);
      PointsOfOrder(dir, StableSort.Sort(ByFileName, listing.value));
    }
  }

  lemma DirPointsDir(dir: nat, listing: Option<seq<Entry>>, b: Block)
    requires b in DirPoints(dir, listing)
    ensures b.path.dir == dir
  {
    DirPointsMean(dir, listing.value, b);
    var e :| e in listing.value && EntryPoint(dir, e) == Some(b);
    EntryPointMeans(dir, e, b);
  }

  lemma PointBelowStep(dirs: seq<Option<seq<Entry>>>, n: nat, b: Block)
    requires n < |dirs|
    ensures PointBelow(dirs, n + 1, b) <==> PointBelow(dirs, n, b) || (dirs[n].Some? && PointIn(n, dirs[n].value, b))
  {
  }

  lemma ListingMean(dir: nat, listing: Option<seq<Entry>>, b: Block)
    ensures b in DirPoints(dir, listing) <==> listing.Some? && PointIn(dir, listing.value, b)
  {
    if listing.Some? { DirPointsMean(dir, listing.value, b); }
  }

  lemma {:induction false} PointsStep(dirs: seq<Option<seq<Entry>>>, n: nat, b: Block)
    requires n < |dirs|
    ensures b in PointsUpTo(dirs, n + 1) <==>
            b in PointsUpTo(dirs, n) || (dirs[n].Some? && PointIn(n, dirs[n].value, b))
  {
    ListingMean(n, dirs[n], b);
  }

  /** The list the scan goes by has exactly the entry points of the readable directories. */
  lemma {:induction false} PointsMean(dirs: seq<Option<seq<Entry>>>, n: nat, b: Block)
    requires n <= |dirs|
    ensures b in PointsUpTo(dirs, n) <==> PointBelow(dirs, n, b)
  {
    if n > 0 {
      var m := n - 1;
      PointsMean(dirs, m, b);
      PointsStep(dirs, m, b);
      PointBelowStep(dirs, m, b);
    }
  }

  ghost predicate DirsBelow(ps: seq<Block>, n: nat) {
    forall b :: b in ps ==> b.path.dir < n
  }

  /** And it has them by directory, and in a directory by file name. */
  lemma {:induction false} PointsInOrder(dirs: seq<Option<seq<Entry>>>, n: nat)
    requires n <= |dirs|
    ensures InOrder(PointsUpTo(dirs, n)) && DirsBelow(PointsUpTo(dirs, n), n)
  {
    if n > 0 {
      var m := n - 1;
      PointsInOrder(dirs, m);
      DirPointsOrder(m, dirs[m]);
      forall b | b in DirPoints(m, dirs[m]) ensures b.path.dir == m { DirPointsDir(m, dirs[m], b); }
      OrderJoined(PointsUpTo(dirs, m), DirPoints(m, dirs[m]), m);
    }
  }

  lemma OrderJoined(a: seq<Block>, b: seq<Block>, dir: nat)
    requires InOrder(a) && InOrder(b) && DirsBelow(a, dir)
    requires forall x :: x in b ==> x.path.dir == dir
    ensures InOrder(a + b) && DirsBelow(a + b, dir + 1)
  {
    var ps := a + b;
    forall i, j | 0 <= i < j < |ps| ensures Before(ps[i], ps[j]) {
      if i < |a| <= j {
        assert ps[i] in a && ps[j] in b;
      } else if i >= |a| {
        assert ps[i] == b[i - |a|] && ps[j] == b[j - |a|];
      }
    }
  }
}
