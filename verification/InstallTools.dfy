/**
  Installing a tool module onto `std`: the walk along the module's
  `__index` tables that copies the functions a Lua lookup would find.
*/
module InstallTools {

  /** A Lua value, as far as the walk looks at it; `Other` is anything but nil, a function or a table. */
  datatype Value = Nil | Fn(fn: nat) | TableRef(id: nat) | Other(kind: nat)

  /** A table's own entries, none of them nil, and the `__index` of its metatable, nil if there is none. */
  datatype Table = Table(fields: map<string, Value>, index: Value)

  type Heap = seq<Table>

  predicate IsTable(h: Heap, v: Value) {
    v.TableRef? && v.id < |h|
  }

  // ----- what Lua finds -----

  /** How an ordinary `t[name]` ends: with a value, in a call of an `__index` function, or in an error. */
  datatype Lookup = Found(value: Value) | CallsFunction(fn: nat) | NotIndexable | TooLong

  /**
    An ordinary lookup of `name` that has come to `v` as the next `__index`
    and may look into `limit` more values. A kind of value has an `__index`
    of its own in `kinds`, as strings do, or nil.
  */
  function LookIn(h: Heap, kinds: nat -> Value, v: Value, name: string, limit: nat): Lookup
    decreases limit
  {
    match v
    case Nil => Found(Nil)
    case Fn(fn) => CallsFunction(fn)
    case TableRef(id) =>
      if limit == 0 then TooLong
      else if id >= |h| then NotIndexable
      else if name in h[id].fields then Found(h[id].fields[name])
      else LookIn(h, kinds, h[id].index, name, limit - 1)
    case Other(kind) =>
      if limit == 0 then TooLong
      else if kinds(kind) == Nil then NotIndexable
      else LookIn(h, kinds, kinds(kind), name, limit - 1)
  }

  /** Whether the tables from `v` on, following `__index`, are these and then no more. */
  ghost predicate Chain(h: Heap, v: Value, ids: seq<nat>)
    decreases |ids|
  {
    if ids == [] then !IsTable(h, v)
    else v == TableRef(ids[0]) && ids[0] < |h| && Chain(h, h[ids[0]].index, ids[1..])
  }

  /** What the walk along a chain ends at. */
  ghost function EndOf(h: Heap, v: Value, ids: seq<nat>): Value
    requires Chain(h, v, ids)
    decreases |ids|
  {
    if ids == [] then v else EndOf(h, h[ids[0]].index, ids[1..])
  }

  /** The entry of the nearest table of a chain that has one. */
  ghost function Nearest(h: Heap, ids: seq<nat>, name: string): Value
    requires forall i :: 0 <= i < |ids| ==> ids[i] < |h|
  {
    if ids == [] then Nil
    else if name in h[ids[0]].fields then h[ids[0]].fields[name]
    else Nearest(h, ids[1..], name)
  }

  /** Whether one of the first `limit` tables of a chain has the name. */
  ghost predicate HeldWithin(h: Heap, ids: seq<nat>, name: string, limit: nat)
    requires forall i :: 0 <= i < |ids| ==> ids[i] < |h|
  {
    exists i :: 0 <= i < |ids| && i < limit && name in h[ids[i]].fields
  }

  /** No table holds a nil. */
  ghost predicate NoNils(h: Heap) {
    forall id, name :: 0 <= id < |h| && name in h[id].fields ==> h[id].fields[name] != Nil
  }

  lemma {:induction false} ChainInHeap(h: Heap, v: Value, ids: seq<nat>)
    requires Chain(h, v, ids)
    ensures forall i :: 0 <= i < |ids| ==> ids[i] < |h|
    ensures !IsTable(h, EndOf(h, v, ids))
    decreases |ids|
  {
    if ids != [] { ChainInHeap(h, h[ids[0]].index, ids[1..]); }
  }

  lemma {:induction false} NotHeldIsNil(h: Heap, ids: seq<nat>, name: string)
    requires NoNils(h) && (forall i :: 0 <= i < |ids| ==> ids[i] < |h|)
    ensures Nearest(h, ids, name) == Nil <==> !HeldWithin(h, ids, name, |ids|)
  {
    if ids != [] {
      NotHeldIsNil(h, ids[1..], name);
      HeldStep(h, ids, name, |ids|);
    }
  }

  lemma HeldStep(h: Heap, ids: seq<nat>, name: string, limit: nat)
    requires ids != [] && limit > 0 && (forall i :: 0 <= i < |ids| ==> ids[i] < |h|)
    ensures HeldWithin(h, ids, name, limit) <==>
            name in h[ids[0]].fields || HeldWithin(h, ids[1..], name, limit - 1)
  {
    if HeldWithin(h, ids[1..], name, limit - 1) {
      var i :| 0 <= i < |ids[1..]| && i < limit - 1 && name in h[ids[1..][i]].fields;
      assert name in h[ids[i + 1]].fields;
    }
    if HeldWithin(h, ids, name, limit) && name !in h[ids[0]].fields {
      var i :| 0 <= i < |ids| && i < limit && name in h[ids[i]].fields;
      assert ids[1..][i - 1] == ids[i];
    }
  }

  /** Along a chain an ordinary lookup finds the nearest entry; past it, it goes on where the walk cannot. */
  lemma {:induction false} LookupAlongChain(h: Heap, kinds: nat -> Value, v: Value, ids: seq<nat>, name: string, limit: nat)
    requires Chain(h, v, ids)
    ensures forall i :: 0 <= i < |ids| ==> ids[i] < |h|
    ensures LookIn(h, kinds, v, name, limit) ==
            if HeldWithin(h, ids, name, limit) then Found(Nearest(h, ids, name))
            else if limit < |ids| then TooLong
            else LookIn(h, kinds, EndOf(h, v, ids), name, limit - |ids|)
    decreases |ids|
  {
    ChainInHeap(h, v, ids);
    if ids != [] && limit > 0 {
      LookupAlongChain(h, kinds, h[ids[0]].index, ids[1..], name, limit - 1);
      HeldStep(h, ids, name, limit);
    }
  }

  /** The `__index` a value has: a table's own, or that of its kind. */
  function IndexOf(h: Heap, kinds: nat -> Value, v: Value): Value {
    match v
    case TableRef(id) => if id < |h| then h[id].index else Nil
    case Other(kind) => kinds(kind)
    case _ => Nil
  }

  function StepsOn(h: Heap, kinds: nat -> Value, v: Value, n: nat): Value
    decreases n
  {
    if n == 0 then v else StepsOn(h, kinds, IndexOf(h, kinds, v), n - 1)
  }

  /** Whether a lookup of `name` goes on to the `__index` of a value: a table without it, or another value that has one. */
  predicate LooksPast(h: Heap, kinds: nat -> Value, v: Value, name: string) {
    (IsTable(h, v) && name !in h[v.id].fields) || (v.Other? && kinds(v.kind) != Nil)
  }

  /** Whether `n` values from `v` on are looked past, and then there is nil. */
  ghost predicate NilAfter(h: Heap, kinds: nat -> Value, v: Value, name: string, n: nat) {
    StepsOn(h, kinds, v, n) == Nil && forall i: nat :: i < n ==> LooksPast(h, kinds, StepsOn(h, kinds, v, i), name)
  }

  /** Whether the values from `v` on, each the `__index` of the one before, come to nil within `limit`, none having the name. */
  ghost predicate EndsInNil(h: Heap, kinds: nat -> Value, v: Value, name: string, limit: nat) {
    exists n: nat :: n <= limit && NilAfter(h, kinds, v, name, n)
  }

  lemma NilAfterOne(h: Heap, kinds: nat -> Value, v: Value, name: string, n: nat)
    requires n > 0
    ensures NilAfter(h, kinds, v, name, n) <==>
            LooksPast(h, kinds, v, name) && NilAfter(h, kinds, IndexOf(h, kinds, v), name, n - 1)
  {
    var w := IndexOf(h, kinds, v);
    if NilAfter(h, kinds, v, name, n) {
      assert LooksPast(h, kinds, StepsOn(h, kinds, v, 0), name);
      forall i: nat | i < n - 1 ensures LooksPast(h, kinds, StepsOn(h, kinds, w, i), name) {
        assert LooksPast(h, kinds, StepsOn(h, kinds, v, i + 1), name);
      }
    }
    if LooksPast(h, kinds, v, name) && NilAfter(h, kinds, w, name, n - 1) {
      forall i: nat | i < n ensures LooksPast(h, kinds, StepsOn(h, kinds, v, i), name) {
        if i > 0 { assert StepsOn(h, kinds, v, i) == StepsOn(h, kinds, w, i - 1); }
      }
    }
  }

  lemma EndsInNilOne(h: Heap, kinds: nat -> Value, v: Value, name: string, limit: nat)
    requires v != Nil
    ensures EndsInNil(h, kinds, v, name, limit) <==>
            limit > 0 && LooksPast(h, kinds, v, name) && EndsInNil(h, kinds, IndexOf(h, kinds, v), name, limit - 1)
  {
    if EndsInNil(h, kinds, v, name, limit) {
      var n: nat :| n <= limit && NilAfter(h, kinds, v, name, n);
      assert n > 0;
      NilAfterOne(h, kinds, v, name, n);
    }
    if limit > 0 && LooksPast(h, kinds, v, name) && EndsInNil(h, kinds, IndexOf(h, kinds, v), name, limit - 1) {
      var n: nat :| n <= limit - 1 && NilAfter(h, kinds, IndexOf(h, kinds, v), name, n);
      NilAfterOne(h, kinds, v, name, n + 1);
    }
  }

  /** A lookup finds nil exactly where the way on leads to nil. */
  lemma {:induction false} FindsNilExactly(h: Heap, kinds: nat -> Value, v: Value, name: string, limit: nat)
    requires NoNils(h)
    ensures LookIn(h, kinds, v, name, limit) == Found(Nil) <==> EndsInNil(h, kinds, v, name, limit)
    decreases limit
  {
    if v == Nil {
      assert NilAfter(h, kinds, v, name, 0);
    } else {
      EndsInNilOne(h, kinds, v, name, limit);
      if limit > 0 {
        FindsNilExactly(h, kinds, IndexOf(h, kinds, v), name, limit - 1);
      }
    }
  }

  /**
    The walk and Lua agree on a name, that is, Lua finds the very entry the
    install goes by, exactly when a table of the chain within Lua's reach
    holds the name, or none does and the way on from the chain leads to nil.
  */
  lemma {:induction false} WalkAgreesExactly(h: Heap, kinds: nat -> Value, v: Value, ids: seq<nat>, name: string, limit: nat)
    requires NoNils(h) && Chain(h, v, ids)
    ensures forall i :: 0 <= i < |ids| ==> ids[i] < |h|
    ensures LookIn(h, kinds, v, name, limit) == Found(Nearest(h, ids, name)) <==>
            || HeldWithin(h, ids, name, limit)
            || (|ids| <= limit && !HeldWithin(h, ids, name, |ids|) && EndsInNil(h, kinds, EndOf(h, v, ids), name, limit - |ids|))
  {
    ChainInHeap(h, v, ids);
    LookupAlongChain(h, kinds, v, ids, name, limit);
    NotHeldIsNil(h, ids, name);
    if |ids| <= limit {
      FindsNilExactly(h, kinds, EndOf(h, v, ids), name, limit - |ids|);
    }
  }

  /**
    A chain that ends in a function: for a name none of its tables holds Lua
    calls the function, and the install takes it for absent.
  */
  lemma {:induction false} FunctionIndexIsNotWalked(h: Heap, kinds: nat -> Value, v: Value, ids: seq<nat>, fn: nat, name: string, limit: nat)
    requires NoNils(h) && Chain(h, v, ids) && EndOf(h, v, ids) == Fn(fn) && |ids| <= limit
    ensures forall i :: 0 <= i < |ids| ==> ids[i] < |h|
    ensures LookIn(h, kinds, v, name, limit) == CallsFunction(fn) <==> Nearest(h, ids, name) == Nil
  {
    ChainInHeap(h, v, ids);
    LookupAlongChain(h, kinds, v, ids, name, limit);
    NotHeldIsNil(h, ids, name);
  }

  // ----- what the install does -----

  /** What an install does to one name, given what Lua finds under it. */
  ghost predicate Installed(was: map<string, Value>, now: map<string, Value>, name: string, found: Value) {
    if found.Fn? then name in now && now[name] == found
    else Same(was, now, name)
  }

  ghost predicate Same(was: map<string, Value>, now: map<string, Value>, name: string) {
    (name in now <==> name in was) && (name in was ==> now[name] == was[name])
  }

  /** How the walk stands before the tables `rest`: names seen are settled, the others are looked for in the rest. */
  ghost predicate Progress(h: Heap, ids: seq<nat>, rest: seq<nat>, was: map<string, Value>, now: map<string, Value>, seen: set<string>)
    requires forall i :: 0 <= i < |ids| ==> ids[i] < |h|
    requires forall i :: 0 <= i < |rest| ==> rest[i] < |h|
  {
    && (forall name :: name in seen ==> Installed(was, now, name, Nearest(h, ids, name)))
    && (forall name :: name !in seen ==> Same(was, now, name) && Nearest(h, ids, name) == Nearest(h, rest, name))
  }

  /** One level: every entry whose name has not been seen nearer. */
  method InstallLevel(h: Heap, ghost ids: seq<nat>, ghost rest: seq<nat>, ghost was: map<string, Value>,
                      level: nat, now: map<string, Value>, seen: set<string>)
    returns (after: map<string, Value>, seenAfter: set<string>)
    requires forall i :: 0 <= i < |ids| ==> ids[i] < |h|
    requires forall i :: 0 <= i < |rest| ==> rest[i] < |h|
    requires rest != [] && level == rest[0]
    requires Progress(h, ids, rest, was, now, seen)
    ensures Progress(h, ids, rest[1..], was, after, seenAfter)
  {
    after, seenAfter := now, seen;
    var todo := h[level].fields.Keys;
    while todo != {}
      invariant todo <= h[level].fields.Keys
      invariant forall name :: name in h[level].fields && name !in todo ==> name in seenAfter
      invariant Progress(h, ids, rest, was, after, seenAfter)
      decreases |todo|
    {
      var name :| name in todo;
      todo := todo - {name};
      if name !in seenAfter {
        var value := h[level].fields[name];
        assert Nearest(h, ids, name) == value;
        seenAfter := seenAfter + {name};
        if value.Fn? {
          after := after[name := value];
        }
      }
    }
    assert forall name :: name !in seenAfter ==> Nearest(h, rest, name) == Nearest(h, rest[1..], name);
  }

  /**
    The install loop on a chain that ends: a name is set exactly when Lua
    finds a function under it, and to that function; a nearer value that is
    not a function hides a farther one, and no other name is touched.
  */
  method Install(h: Heap, module_: Value, target: map<string, Value>, ghost ids: seq<nat>) returns (after: map<string, Value>)
    requires Chain(h, module_, ids)
    ensures forall i :: 0 <= i < |ids| ==> ids[i] < |h|
    ensures forall name :: Installed(target, after, name, Nearest(h, ids, name))
  {
    ChainInHeap(h, module_, ids);
    var level, seen := module_, {};
    after := target;
    ghost var rest: seq<nat> := ids;
    while IsTable(h, level)
      invariant forall i :: 0 <= i < |rest| ==> rest[i] < |h|
      invariant Chain(h, level, rest)
      invariant Progress(h, ids, rest, target, after, seen)
      decreases |rest|
    {
      after, seen := InstallLevel(h, ids, rest, target, level.id, after, seen);
      level := h[level.id].index;
      rest := rest[1..];
    }
    assert rest == [];
  }

  // ----- when the loop ends -----

  function Next(h: Heap, v: Value): Value {
    if IsTable(h, v) then h[v.id].index else Nil
  }

  /** The value the loop is at after `n` rounds. */
  function Level(h: Heap, v: Value, n: nat): Value {
    if n == 0 then v else Next(h, Level(h, v, n - 1))
  }

  ghost predicate Ends(h: Heap, v: Value) {
    exists n: nat :: !IsTable(h, Level(h, v, n))
  }

  /** No table is met twice. */
  ghost predicate Acyclic(h: Heap, v: Value) {
    forall i: nat, j: nat :: i < j && IsTable(h, Level(h, v, i)) ==> Level(h, v, i) != Level(h, v, j)
  }

  lemma {:induction false} LevelAdd(h: Heap, v: Value, a: nat, b: nat)
    ensures Level(h, v, a + b) == Level(h, Level(h, v, a), b)
    decreases b
  {
    if b > 0 { LevelAdd(h, v, a, b - 1); }
  }

  lemma {:induction false} EndIsFinal(h: Heap, v: Value, n: nat, m: nat)
    requires !IsTable(h, Level(h, v, n)) && n <= m
    ensures !IsTable(h, Level(h, v, m))
    decreases m
  {
    if n < m { EndIsFinal(h, v, n, m - 1); }
  }

  /** A walk that comes back to a table comes back to it for ever. */
  lemma {:induction false} ComesBack(h: Heap, w: Value, d: nat, k: nat)
    requires d > 0 && Level(h, w, d) == w
    ensures exists m: nat :: m >= k && Level(h, w, m) == w
    decreases k
  {
    if k == 0 {
      assert Level(h, w, 0) == w;
    } else {
      ComesBack(h, w, d, k - 1);
      var m: nat :| m >= k - 1 && Level(h, w, m) == w;
      LevelAdd(h, w, m, d);
      assert Level(h, w, m + d) == w;
    }
  }

  lemma RepeatNeverEnds(h: Heap, v: Value, i: nat, j: nat)
    requires i < j && IsTable(h, Level(h, v, i)) && Level(h, v, i) == Level(h, v, j)
    ensures !Ends(h, v)
  {
    forall n: nat ensures IsTable(h, Level(h, v, n)) {
      var w := Level(h, v, i);
      LevelAdd(h, v, i, j - i);
      ComesBack(h, w, j - i, n);
      var m: nat :| m >= n && Level(h, w, m) == w;
      LevelAdd(h, v, i, m);
      if !IsTable(h, Level(h, v, n)) {
        EndIsFinal(h, v, n, i + m);
      }
    }
  }

  ghost predicate Distinct(ids: seq<nat>) {
    forall i, j :: 0 <= i < j < |ids| ==> ids[i] != ids[j]
  }

  /** The numbers below `n`. */
  ghost function Below(n: nat): (s: set<int>)
    ensures |s| == n && forall i :: i in s <==> 0 <= i < n
  {
    if n == 0 then {} else Below(n - 1) + {n - 1}
  }

  ghost function Elements(ids: seq<nat>): (s: set<int>)
    ensures forall x :: x in s <==> x in ids
  {
    if ids == [] then {} else Elements(ids[..|ids| - 1]) + {ids[|ids| - 1]}
  }

  lemma {:induction false} DistinctSize(ids: seq<nat>)
    requires Distinct(ids)
    ensures |Elements(ids)| == |ids|
  {
    if ids != [] {
      var init, last := ids[..|ids| - 1], ids[|ids| - 1];
      DistinctSize(init);
      assert last !in init;
    }
  }

  /** As many distinct tables as the heap holds, and no more. */
  lemma Pigeonhole(ids: seq<nat>, n: nat)
    requires Distinct(ids) && forall i :: 0 <= i < |ids| ==> ids[i] < n
    ensures |ids| <= n
  {
    DistinctSize(ids);
    Fits(Elements(ids), Below(n));
  }

  lemma {:induction false} Fits<T>(a: set<T>, b: set<T>)
    requires a <= b
    ensures |a| <= |b|
  {
    if a != {} {
      var x :| x in a;
      Fits(a - {x}, b - {x});
    }
  }

  lemma {:induction false} LevelsAreChain(h: Heap, v: Value, ids: seq<nat>, n: nat)
    requires n <= |ids| && !IsTable(h, Level(h, v, |ids|))
    requires forall i :: 0 <= i < |ids| ==> ids[i] < |h| && Level(h, v, i) == TableRef(ids[i])
    ensures Chain(h, Level(h, v, n), ids[n..])
    decreases |ids| - n
  {
    if n < |ids| {
      LevelsAreChain(h, v, ids, n + 1);
      assert ids[n..][1..] == ids[n + 1..];
    }
  }

  /** On an acyclic chain the loop ends, and the tables it meets are a chain in the sense of `Install`. */
  lemma AcyclicHasChain(h: Heap, v: Value) returns (ids: seq<nat>)
    requires Acyclic(h, v)
    ensures Chain(h, v, ids) && Ends(h, v)
  {
    ids := [];
    while IsTable(h, Level(h, v, |ids|))
      invariant forall i :: 0 <= i < |ids| ==> ids[i] < |h| && Level(h, v, i) == TableRef(ids[i])
      invariant Distinct(ids) && |ids| <= |h|
      decreases |h| - |ids|
    {
      var next := Level(h, v, |ids|).id;
      forall i | 0 <= i < |ids| ensures ids[i] != next {
        assert Level(h, v, i) != Level(h, v, |ids|);
      }
      ids := ids + [next];
      Pigeonhole(ids, |h|);
    }
    LevelsAreChain(h, v, ids, 0);
    assert ids[0..] == ids;
  }

  /** The install loop terminates exactly on acyclic chains. */
  lemma EndsExactlyWhenAcyclic(h: Heap, v: Value)
    ensures Ends(h, v) <==> Acyclic(h, v)
  {
    if Acyclic(h, v) {
      var ids := AcyclicHasChain(h, v);
    } else {
      var i: nat, j: nat :| i < j && IsTable(h, Level(h, v, i)) && Level(h, v, i) == Level(h, v, j);
      RepeatNeverEnds(h, v, i, j);
    }
  }
}
