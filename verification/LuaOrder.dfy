/** When the order in which `pairs` visits a table can be seen in the JSON it becomes. */
module LuaOrder {
  import opened Wrappers
  import opened LuaJson
  import opened LuaReach

  // ----- three readings of "one result" -----

  /** Two values with an encoding in common. */
  ghost predicate Agree(h: Heap, v: Value, w: Value, depth: nat) {
    exists j :: Encodes(h, v, depth, j) && Encodes(h, w, depth, j)
  }

  /** In every table that is followed, entries whose keys share a text, as `5` and `"5"` do, agree. */
  ghost predicate Unambiguous(h: Heap, v: Value, depth: nat)
    decreases Left(depth)
  {
    depth <= MAX_DEPTH && v.Table? && v.id < |h| ==>
      var t := h[v.id];
      if t.arr != [] then forall i :: 0 <= i < |t.arr| ==> Unambiguous(h, t.arr[i], depth + 1)
      else IsTaggedArray(t.meta) == Some(false) ==>
        (forall k :: k in t.keyed ==> Unambiguous(h, t.keyed[k], depth + 1)) && PairsAgree(h, t.keyed, depth + 1)
  }

  ghost predicate PairsAgree(h: Heap, keyed: map<Key, Value>, depth: nat) {
    forall a, b :: a in keyed && b in keyed && KeyText(a) == KeyText(b) ==> Agree(h, keyed[a], keyed[b], depth)
  }

  ghost predicate EntriesClear(h: Heap, keyed: map<Key, Value>, depth: nat) {
    forall k :: k in keyed ==> Unambiguous(h, keyed[k], depth)
  }

  ghost predicate OneEncoding(h: Heap, v: Value, depth: nat) {
    forall j, k :: Encodes(h, v, depth, j) && Encodes(h, v, depth, k) ==> j == k
  }

  /** Whatever order `pairs` takes in each table, the conversion returns the same. */
  ghost predicate SameInEveryOrder(h: Heap, v: Value, depth: nat)
    requires Convertible(h, v, depth)
  {
    forall o: Order, p: Order :: Ordered(h, o) && Ordered(h, p) ==>
      Converted(h, o, v, depth) == Converted(h, p, v, depth)
  }

  // ----- unambiguous values have one encoding -----

  lemma {:induction false} EncodingIsUnique(h: Heap, v: Value, depth: nat, j: Json, other: Json)
    requires Unambiguous(h, v, depth) && Encodes(h, v, depth, j) && Encodes(h, v, depth, other)
    ensures j == other
    decreases Left(depth), 1
  {
    match v
    case Table(id) =>
      var t := h[id];
      if t.arr != [] {
        forall i | 0 <= i < |j.items| ensures j.items[i] == other.items[i] {
          EncodingIsUnique(h, t.arr[i], depth + 1, j.items[i], other.items[i]);
        }
      } else if !IsTaggedArray(t.meta).value {
        SameNames(h, t.keyed, depth, j.fields, other.fields);
        EncodedFrom(h, t.keyed, depth, j.fields);
        EncodedFrom(h, t.keyed, depth, other.fields);
        UniqueFields(h, t.keyed, depth, j.fields, other.fields);
      }
    case _ =>
  }

  lemma SameNames(h: Heap, keyed: map<Key, Value>, depth: nat, f: map<string, Json>, g: map<string, Json>)
    requires depth <= MAX_DEPTH && EncodesFields(h, keyed, depth, f) && EncodesFields(h, keyed, depth, g)
    ensures f.Keys == g.Keys
  {
    FieldNames(h, keyed, depth, f);
    FieldNames(h, keyed, depth, g);
  }

  /** Whether `j` encodes an entry whose key has the text `s`. */
  ghost predicate FieldFrom(h: Heap, keyed: map<Key, Value>, depth: nat, s: string, j: Json) {
    exists k :: k in keyed && KeyText(k) == Some(s) && Encodes(h, keyed[k], depth, j)
  }

  ghost predicate AllFrom(h: Heap, keyed: map<Key, Value>, depth: nat, fields: map<string, Json>) {
    forall s :: s in fields ==> FieldFrom(h, keyed, depth, s, fields[s])
  }

  lemma EncodedFrom(h: Heap, keyed: map<Key, Value>, depth: nat, fields: map<string, Json>)
    requires depth <= MAX_DEPTH && EncodesFields(h, keyed, depth, fields)
    ensures AllFrom(h, keyed, depth + 1, fields)
  {
    forall s | s in fields ensures FieldFrom(h, keyed, depth + 1, s, fields[s]) {
      var k := KeyOf(h, keyed, depth, fields, s);
    }
  }

  lemma {:induction false} UniqueFields(h: Heap, keyed: map<Key, Value>, depth: nat, f: map<string, Json>, g: map<string, Json>)
    requires depth <= MAX_DEPTH && PairsAgree(h, keyed, depth + 1) && EntriesClear(h, keyed, depth + 1)
    requires AllFrom(h, keyed, depth + 1, f) && AllFrom(h, keyed, depth + 1, g) && f.Keys == g.Keys
    ensures f == g
    decreases Left(depth), 0, 2
  {
    forall s | s in f ensures f[s] == g[s] {
      UniqueField(h, keyed, depth, s, f[s], g[s]);
    }
  }

  lemma {:induction false} UniqueField(h: Heap, keyed: map<Key, Value>, depth: nat, s: string, j: Json, k: Json)
    requires depth <= MAX_DEPTH && PairsAgree(h, keyed, depth + 1) && EntriesClear(h, keyed, depth + 1)
    requires FieldFrom(h, keyed, depth + 1, s, j) && FieldFrom(h, keyed, depth + 1, s, k)
    ensures j == k
    decreases Left(depth), 0, 1
  {
    var a :| a in keyed && KeyText(a) == Some(s) && Encodes(h, keyed[a], depth + 1, j);
    var b :| b in keyed && KeyText(b) == Some(s) && Encodes(h, keyed[b], depth + 1, k);
    UniqueAcross(h, keyed[a], keyed[b], depth, j, k);
  }

  lemma {:induction false} UniqueAcross(h: Heap, v: Value, w: Value, depth: nat, j: Json, k: Json)
    requires depth <= MAX_DEPTH && Agree(h, v, w, depth + 1)
    requires Unambiguous(h, v, depth + 1) && Encodes(h, v, depth + 1, j)
    requires Unambiguous(h, w, depth + 1) && Encodes(h, w, depth + 1, k)
    ensures j == k
    decreases Left(depth), 0, 0
  {
    var l :| Encodes(h, v, depth + 1, l) && Encodes(h, w, depth + 1, l);
    EncodingIsUnique(h, v, depth + 1, j, l);
    EncodingIsUnique(h, w, depth + 1, k, l);
  }

  // ----- orders -----

  ghost function Listing(keys: set<Key>): (ks: seq<Key>)
    ensures Lists(ks, keys)
  {
    if keys == {} then []
    else
      var k :| k in keys;
      Listing(keys - {k}) + [k]
  }

  ghost function AnyOrder(h: Heap): (o: Order)
    ensures Ordered(h, o)
  {
    (id: nat) => if id < |h| then Listing(h[id].keyed.Keys) else []
  }

  ghost predicate DifferOnlyAt(o: Order, p: Order, id: nat) {
    forall i: nat :: i != id ==> o(i) == p(i)
  }

  /** The order that visits `k` last in table `id` and is `order` elsewhere. */
  ghost function WithLast(h: Heap, order: Order, id: nat, k: Key): (o: Order)
    requires Ordered(h, order) && id < |h| && k in h[id].keyed
    ensures Ordered(h, o) && DifferOnlyAt(order, o, id)
    ensures |o(id)| > 0 && o(id)[|o(id)| - 1] == k
  {
    var ks := Listing(h[id].keyed.Keys - {k}) + [k];
    (i: nat) => if i == id then ks else order(i)
  }

  /** The order of a table that is not reached makes no difference. */
  lemma {:induction false} UnreachedOrder(h: Heap, o: Order, p: Order, id: nat, v: Value, depth: nat)
    requires Ordered(h, o) && Ordered(h, p) && DifferOnlyAt(o, p, id)
    requires Convertible(h, v, depth) && Avoids(h, v, id)
    ensures Converted(h, o, v, depth) == Converted(h, p, v, depth)
    decreases Left(depth)
  {
    match v
    case Table(t) =>
      assert Reaches(h, v, 0, v);
      if h[t].arr != [] {
        forall i | 0 <= i < |h[t].arr|
          ensures Converted(h, o, h[t].arr[i], depth + 1) == Converted(h, p, h[t].arr[i], depth + 1)
        {
          AvoidsNext(h, v, h[t].arr[i], id);
          UnreachedOrder(h, o, p, id, h[t].arr[i], depth + 1);
        }
      } else if !IsTaggedArray(h[t].meta).value {
        forall k | k in h[t].keyed
          ensures Converted(h, o, h[t].keyed[k], depth + 1) == Converted(h, p, h[t].keyed[k], depth + 1)
        {
          AvoidsNext(h, v, h[t].keyed[k], id);
          UnreachedOrder(h, o, p, id, h[t].keyed[k], depth + 1);
        }
        SameFields(h, o, p, t, depth);
      }
    case _ =>
  }

  lemma SameFields(h: Heap, o: Order, p: Order, t: nat, depth: nat)
    requires t < |h| && Ordered(h, o) && Ordered(h, p) && o(t) == p(t) && depth <= MAX_DEPTH
    requires Converts(h, o, t, |o(t)|, depth) && Converts(h, p, t, |p(t)|, depth)
    requires forall k :: k in h[t].keyed ==>
               Convertible(h, h[t].keyed[k], depth + 1)
               && Converted(h, o, h[t].keyed[k], depth + 1) == Converted(h, p, h[t].keyed[k], depth + 1)
    ensures ConvertedFields(h, o, t, |o(t)|, depth) == ConvertedFields(h, p, t, |p(t)|, depth)
  {
    var n := |o(t)|;
    assert FirstNames(h, o, t, n, depth) == FirstNames(h, p, t, n, depth);
    assert FirstValues(h, o, t, n, depth) == FirstValues(h, p, t, n, depth);
  }

  // ----- an ambiguous value shows the order -----

  /** The key visited last has its value in the result. */
  lemma LastStays(h: Heap, order: Order, id: nat, k: Key, depth: nat)
    requires Ordered(h, order) && Convertible(h, Table(id), depth)
    requires h[id].arr == [] && IsTaggedArray(h[id].meta) == Some(false)
    requires k in h[id].keyed && |order(id)| > 0 && order(id)[|order(id)| - 1] == k
    ensures var j := Converted(h, order, Table(id), depth);
            && j.JObject? && KeyText(k).value in j.fields
            && j.fields[KeyText(k).value] == Converted(h, order, h[id].keyed[k], depth + 1)
  {
  }

  /** An entry that shows the order still does when it is visited last. */
  lemma {:induction false} ShownThroughEntry(h: Heap, id: nat, k: Key, depth: nat, o: Order, p: Order)
    requires Convertible(h, Table(id), depth) && h[id].arr == [] && IsTaggedArray(h[id].meta) == Some(false)
    requires k in h[id].keyed && Ordered(h, o) && Ordered(h, p)
    requires Converted(h, o, h[id].keyed[k], depth + 1) != Converted(h, p, h[id].keyed[k], depth + 1)
    ensures Converted(h, WithLast(h, o, id, k), Table(id), depth) != Converted(h, WithLast(h, p, id, k), Table(id), depth)
  {
    var v := h[id].keyed[k];
    assert Entry(h, Table(id), v);
    NoReturn(h, id, v, depth);
    UnreachedOrder(h, o, WithLast(h, o, id, k), id, v, depth + 1);
    UnreachedOrder(h, p, WithLast(h, p, id, k), id, v, depth + 1);
    LastStays(h, WithLast(h, o, id, k), id, k, depth);
    LastStays(h, WithLast(h, p, id, k), id, k, depth);
  }

  /** Two entries under one text that do not agree: each can be made the one that stays. */
  lemma {:induction false} ShownByPair(h: Heap, id: nat, a: Key, b: Key, depth: nat, o: Order)
    requires Convertible(h, Table(id), depth) && h[id].arr == [] && IsTaggedArray(h[id].meta) == Some(false)
    requires a in h[id].keyed && b in h[id].keyed && KeyText(a) == KeyText(b) && Ordered(h, o)
    requires !Agree(h, h[id].keyed[a], h[id].keyed[b], depth + 1)
    ensures Converted(h, WithLast(h, o, id, a), Table(id), depth) != Converted(h, WithLast(h, o, id, b), Table(id), depth)
  {
    var p, q := WithLast(h, o, id, a), WithLast(h, o, id, b);
    LastStays(h, p, id, a, depth);
    LastStays(h, q, id, b, depth);
    ConvertedEncodes(h, p, h[id].keyed[a], depth + 1);
    ConvertedEncodes(h, q, h[id].keyed[b], depth + 1);
  }

  lemma ShownThroughItem(h: Heap, id: nat, i: nat, depth: nat, o: Order, p: Order)
    requires Convertible(h, Table(id), depth) && i < |h[id].arr| && Ordered(h, o) && Ordered(h, p)
    requires Converted(h, o, h[id].arr[i], depth + 1) != Converted(h, p, h[id].arr[i], depth + 1)
    ensures Converted(h, o, Table(id), depth) != Converted(h, p, Table(id), depth)
  {
    assert Converted(h, o, Table(id), depth).items[i] != Converted(h, p, Table(id), depth).items[i];
  }

  /** Where an ambiguity lies: in an item, in an entry, or between two entries. */
  ghost predicate AmbiguousItem(h: Heap, t: TableRec, depth: nat) {
    exists i :: 0 <= i < |t.arr| && !Unambiguous(h, t.arr[i], depth)
  }

  lemma AmbiguousWhere(h: Heap, v: Value, depth: nat)
    requires Convertible(h, v, depth) && !Unambiguous(h, v, depth)
    ensures v.Table? && v.id < |h|
    ensures h[v.id].arr != [] ==> AmbiguousItem(h, h[v.id], depth + 1)
    ensures h[v.id].arr == [] ==>
              && IsTaggedArray(h[v.id].meta) == Some(false)
              && !(EntriesClear(h, h[v.id].keyed, depth + 1) && PairsAgree(h, h[v.id].keyed, depth + 1))
  {
  }

  lemma {:induction false} AmbiguityShows(h: Heap, v: Value, depth: nat) returns (o: Order, p: Order)
    requires Convertible(h, v, depth) && !Unambiguous(h, v, depth)
    ensures Ordered(h, o) && Ordered(h, p) && Converted(h, o, v, depth) != Converted(h, p, v, depth)
    decreases Left(depth), 1
  {
    AmbiguousWhere(h, v, depth);
    if h[v.id].arr != [] {
      var i :| 0 <= i < |h[v.id].arr| && !Unambiguous(h, h[v.id].arr[i], depth + 1);
      o, p := AmbiguityShows(h, h[v.id].arr[i], depth + 1);
      ShownThroughItem(h, v.id, i, depth, o, p);
    } else {
      o, p := FieldAmbiguityShows(h, v.id, depth);
    }
  }

  lemma {:induction false} FieldAmbiguityShows(h: Heap, id: nat, depth: nat) returns (o: Order, p: Order)
    requires Convertible(h, Table(id), depth) && h[id].arr == [] && IsTaggedArray(h[id].meta) == Some(false)
    requires !(EntriesClear(h, h[id].keyed, depth + 1) && PairsAgree(h, h[id].keyed, depth + 1))
    ensures Ordered(h, o) && Ordered(h, p) && Converted(h, o, Table(id), depth) != Converted(h, p, Table(id), depth)
    decreases Left(depth), 0
  {
    var keyed := h[id].keyed;
    if !EntriesClear(h, keyed, depth + 1) {
      var k :| k in keyed && !Unambiguous(h, keyed[k], depth + 1);
      o, p := AmbiguityShows(h, keyed[k], depth + 1);
      ShownThroughEntry(h, id, k, depth, o, p);
      o, p := WithLast(h, o, id, k), WithLast(h, p, id, k);
    } else {
      var a, b :| a in keyed && b in keyed && KeyText(a) == KeyText(b) && !Agree(h, keyed[a], keyed[b], depth + 1);
      ShownByPair(h, id, a, b, depth, AnyOrder(h));
      o, p := WithLast(h, AnyOrder(h), id, a), WithLast(h, AnyOrder(h), id, b);
    }
  }

  /**
    A value that converts has one result, in every order `pairs` may take,
    exactly when it is unambiguous, and exactly when it has one encoding at
    all: the order is seen if and only if two entries under one text differ.
  */
  lemma {:induction false} OrderShowsExactly(h: Heap, v: Value, depth: nat)
    requires Convertible(h, v, depth)
    ensures SameInEveryOrder(h, v, depth) <==> Unambiguous(h, v, depth)
    ensures OneEncoding(h, v, depth) <==> Unambiguous(h, v, depth)
  {
    if Unambiguous(h, v, depth) {
      forall j, k | Encodes(h, v, depth, j) && Encodes(h, v, depth, k) ensures j == k {
        EncodingIsUnique(h, v, depth, j, k);
      }
    }
    if OneEncoding(h, v, depth) {
      forall o: Order, p: Order | Ordered(h, o) && Ordered(h, p)
        ensures Converted(h, o, v, depth) == Converted(h, p, v, depth)
      {
        ConvertedEncodes(h, o, v, depth);
        ConvertedEncodes(h, p, v, depth);
      }
    }
    if SameInEveryOrder(h, v, depth) && !Unambiguous(h, v, depth) {
      var o, p := AmbiguityShows(h, v, depth);
      assert false;
    }
  }

  // ----- keys -----

  /** No table has two keys with one text. */
  ghost predicate DistinctTexts(h: Heap) {
    forall id :: 0 <= id < |h| ==> DistinctIn(h[id].keyed)
  }

  ghost predicate DistinctIn(keyed: map<Key, Value>) {
    forall a, b :: a in keyed && b in keyed && KeyText(a) == KeyText(b) ==> a == b
  }

  /** Then every value that converts is unambiguous. */
  lemma {:induction false} DistinctTextsSuffice(h: Heap, v: Value, depth: nat)
    requires DistinctTexts(h) && Convertible(h, v, depth)
    ensures Unambiguous(h, v, depth)
    decreases Left(depth)
  {
    if v.Table? {
      var t := h[v.id];
      if t.arr != [] {
        forall i | 0 <= i < |t.arr| ensures Unambiguous(h, t.arr[i], depth + 1) {
          DistinctTextsSuffice(h, t.arr[i], depth + 1);
        }
      } else if !IsTaggedArray(t.meta).value {
        assert DistinctIn(t.keyed);
        forall k | k in t.keyed
          ensures Unambiguous(h, t.keyed[k], depth + 1) && Agree(h, t.keyed[k], t.keyed[k], depth + 1)
        {
          DistinctTextsSuffice(h, t.keyed[k], depth + 1);
          ConvertedEncodes(h, AnyOrder(h), t.keyed[k], depth + 1);
        }
      }
    }
  }

  /** A table of two entries under one text becomes an object of one field, the later one. */
  lemma TwoFields(h: Heap, order: Order, id: nat, text: string, depth: nat)
    requires Ordered(h, order) && Convertible(h, Table(id), depth)
    requires h[id].arr == [] && IsTaggedArray(h[id].meta) == Some(false) && |order(id)| == 2
    requires KeyText(order(id)[0]) == KeyText(order(id)[1]) == Some(text)
    ensures Converted(h, order, Table(id), depth)
            == JObject(map[text := Converted(h, order, h[id].keyed[order(id)[1]], depth + 1)])
  {
    OneMoreField(h, order, id, 1, depth);
    OneMoreField(h, order, id, 0, depth);
  }

  const FIVES := [IntKey(5), StrKey("5")]

  /** One table with the keys `5` and `"5"`. */
  function Fives(a: bool, b: bool): Heap {
    [TableRec([], map[FIVES[0] := Boolean(a), FIVES[1] := Boolean(b)], NoMeta)]
  }

  lemma FivesConvert(a: bool, b: bool, order: Order)
    requires order(0) == FIVES || order(0) == [FIVES[1], FIVES[0]]
    ensures Ordered(Fives(a, b), order) && Convertible(Fives(a, b), Table(0), 0)
  {
    assert Convertible(Fives(a, b), Boolean(a), 1) && Convertible(Fives(a, b), Boolean(b), 1);
    assert KeyText(FIVES[0]).Some? && KeyText(FIVES[1]).Some?;
  }

  /** The entry visited last wins: the two orders give two results. */
  lemma SharedTextIsAmbiguous(a: bool, b: bool, intLast: Order, strLast: Order)
    requires intLast(0) == [FIVES[1], FIVES[0]] && strLast(0) == FIVES
    ensures var h := Fives(a, b);
            && Ordered(h, intLast) && Ordered(h, strLast) && Convertible(h, Table(0), 0)
            && Converted(h, intLast, Table(0), 0) == JObject(map["5" := JBool(a)])
            && Converted(h, strLast, Table(0), 0) == JObject(map["5" := JBool(b)])
  {
    FivesConvert(a, b, intLast);
    FivesConvert(a, b, strLast);
    assert KeyText(FIVES[0]) == Some("5") && KeyText(FIVES[1]) == Some("5");
    TwoFields(Fives(a, b), intLast, 0, "5", 0);
    TwoFields(Fives(a, b), strLast, 0, "5", 0);
  }
}
