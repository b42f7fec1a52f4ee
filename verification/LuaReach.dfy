/** What `lua_to_json` follows on a heap, and exactly when it succeeds: depth, bad entries, cycles. */
module LuaReach {
  import opened Wrappers
  import opened LuaJson

  /** Whether converting `v` goes into `w` next. */
  ghost predicate Entry(h: Heap, v: Value, w: Value) {
    && v.Table? && v.id < |h|
    && var t := h[v.id];
    if t.arr != [] then w in t.arr
    else IsTaggedArray(t.meta) == Some(false) && exists k :: k in t.keyed && t.keyed[k] == w
  }

  /** Whether `n` entries, one inside the other, lead from `v` to `w`. */
  ghost predicate Reaches(h: Heap, v: Value, n: nat, w: Value)
    decreases n
  {
    if n == 0 then v == w else exists u :: Entry(h, v, u) && Reaches(h, u, n - 1, w)
  }

  /** Whether a value is no reason to fail by itself. */
  ghost predicate Good(h: Heap, v: Value) {
    match v
    case Num(f) => f.Finite?
    case Bytes => false
    case Unsupported => false
    case Table(id) =>
      && id < |h|
      && (h[id].arr != []
          || IsTaggedArray(h[id].meta) == Some(true)
          || (IsTaggedArray(h[id].meta) == Some(false) && forall k :: k in h[id].keyed ==> KeyText(k).Some?))
    case _ => true
  }

  /** Everything reached from a value met at `depth` is good and within the limit. */
  ghost predicate AllReachedFit(h: Heap, v: Value, depth: nat) {
    forall n: nat, w :: Reaches(h, v, n, w) ==> depth + n <= MAX_DEPTH && Good(h, w)
  }

  /** One level of the conversion, in terms of the entries it follows. */
  lemma ConvertibleStep(h: Heap, v: Value, depth: nat)
    ensures Convertible(h, v, depth) <==>
            depth <= MAX_DEPTH && Good(h, v) && forall u :: Entry(h, v, u) ==> Convertible(h, u, depth + 1)
  {
    if v.Table? && v.id < |h| && h[v.id].arr == [] && IsTaggedArray(h[v.id].meta) == Some(false) {
      forall k | k in h[v.id].keyed ensures Entry(h, v, h[v.id].keyed[k]) {}
    }
    if v.Table? && v.id < |h| && h[v.id].arr != [] {
      forall i | 0 <= i < |h[v.id].arr| ensures Entry(h, v, h[v.id].arr[i]) {}
    }
  }

  lemma EntryConverts(h: Heap, v: Value, depth: nat, u: Value)
    requires Convertible(h, v, depth) && Entry(h, v, u)
    ensures Convertible(h, u, depth + 1)
  {
    ConvertibleStep(h, v, depth);
  }

  /** Whether a property of values and depths passes from every value to its entries. */
  ghost predicate Inherited(h: Heap, p: (Value, nat) -> bool) {
    forall v, u, d: nat :: p(v, d) && Entry(h, v, u) ==> p(u, d + 1)
  }

  lemma {:induction false} ReachedInherits(h: Heap, p: (Value, nat) -> bool, v: Value, depth: nat, n: nat, w: Value)
    requires Inherited(h, p) && p(v, depth) && Reaches(h, v, n, w)
    ensures p(w, depth + n)
    decreases n
  {
    if n > 0 {
      var u :| Entry(h, v, u) && Reaches(h, u, n - 1, w);
      ReachedInherits(h, p, u, depth + 1, n - 1, w);
    }
  }

  lemma ReachedConverts(h: Heap, v: Value, depth: nat, n: nat, w: Value)
    requires Convertible(h, v, depth) && Reaches(h, v, n, w)
    ensures Convertible(h, w, depth + n)
  {
    var p := (x: Value, d: nat) => Convertible(h, x, d);
    forall x, u, d: nat | p(x, d) && Entry(h, x, u) ensures p(u, d + 1) {
      EntryConverts(h, x, d, u);
    }
    ReachedInherits(h, p, v, depth, n, w);
    assert p(w, depth + n);
  }

  lemma {:induction false} FitConverts(h: Heap, v: Value, depth: nat)
    requires AllReachedFit(h, v, depth)
    ensures Convertible(h, v, depth)
    decreases Left(depth)
  {
    assert Reaches(h, v, 0, v);
    forall u | Entry(h, v, u) ensures Convertible(h, u, depth + 1) {
      forall n: nat, w | Reaches(h, u, n, w) ensures depth + 1 + n <= MAX_DEPTH && Good(h, w) {
        assert Reaches(h, v, n + 1, w);
      }
      FitConverts(h, u, depth + 1);
    }
    ConvertibleStep(h, v, depth);
  }

  /** The conversion succeeds exactly when everything it can reach is good and within the depth limit. */
  lemma {:induction false} ConvertsExactlyWhenFit(h: Heap, v: Value, depth: nat)
    ensures Convertible(h, v, depth) <==> AllReachedFit(h, v, depth)
  {
    if Convertible(h, v, depth) {
      forall n: nat, w | Reaches(h, v, n, w) ensures depth + n <= MAX_DEPTH && Good(h, w) {
        ReachedConverts(h, v, depth, n, w);
        ConvertibleStep(h, w, depth + n);
      }
    } else if AllReachedFit(h, v, depth) {
      FitConverts(h, v, depth);
    }
  }

  // ----- cycles -----

  lemma {:induction false} ReachesOn(h: Heap, u: Value, a: nat, v: Value, b: nat, w: Value)
    requires Reaches(h, u, a, v) && Reaches(h, v, b, w)
    ensures Reaches(h, u, a + b, w)
    decreases a
  {
    if a > 0 {
      var x :| Entry(h, u, x) && Reaches(h, x, a - 1, v);
      ReachesOn(h, x, a - 1, v, b, w);
    }
  }

  /** Going round a cycle `times` times. */
  lemma {:induction false} RoundAndRound(h: Heap, w: Value, m: nat, times: nat) returns (n: nat)
    requires m > 0 && Reaches(h, w, m, w)
    ensures n >= times && Reaches(h, w, n, w)
    decreases times
  {
    n := 0;
    if times > 0 {
      n := RoundAndRound(h, w, m, times - 1);
      ReachesOn(h, w, n, w, m, w);
      n := n + m;
    }
  }

  /** A nesting deeper than the limit is refused, repeats or not. */
  lemma {:induction false} LongPathFails(h: Heap, v: Value, n: nat, w: Value, depth: nat)
    requires Reaches(h, v, n, w) && depth + n > MAX_DEPTH
    ensures !Convertible(h, v, depth)
  {
    ConvertsExactlyWhenFit(h, v, depth);
  }

  /** A cycle reachable through the entries the conversion follows always gives an error. */
  lemma {:induction false} CycleFails(h: Heap, v: Value, n: nat, w: Value, m: nat, depth: nat)
    requires Reaches(h, v, n, w) && m > 0 && Reaches(h, w, m, w)
    ensures !Convertible(h, v, depth)
  {
    var far := RoundAndRound(h, w, m, MAX_DEPTH + 1);
    ReachesOn(h, v, n, w, far, w);
    LongPathFails(h, v, n + far, w, depth);
  }

  /** A table that is an item of itself is refused. */
  lemma SelfReferenceFails(h: Heap, id: nat)
    requires id < |h| && Table(id) in h[id].arr
    ensures !Convertible(h, Table(id), 0)
  {
    assert Reaches(h, Table(id), 0, Table(id));
    assert Entry(h, Table(id), Table(id));
    assert Reaches(h, Table(id), 1, Table(id));
    CycleFails(h, Table(id), 0, Table(id), 1, 0);
  }

  /** No table is reached from one of its own entries, if it converts. */
  lemma {:induction false} NoReturn(h: Heap, id: nat, u: Value, depth: nat)
    requires Convertible(h, Table(id), depth) && Entry(h, Table(id), u)
    ensures Avoids(h, u, id)
  {
    forall n: nat | Reaches(h, u, n, Table(id)) ensures false {
      assert Reaches(h, Table(id), n + 1, Table(id));
      assert Reaches(h, Table(id), 0, Table(id));
      CycleFails(h, Table(id), 0, Table(id), n + 1, depth);
    }
  }

  ghost predicate Avoids(h: Heap, v: Value, id: nat) {
    forall n: nat :: !Reaches(h, v, n, Table(id))
  }

  lemma AvoidsNext(h: Heap, v: Value, u: Value, id: nat)
    requires Avoids(h, v, id) && Entry(h, v, u)
    ensures v != Table(id) && Avoids(h, u, id)
  {
    assert Reaches(h, v, 0, v);
    forall n: nat ensures !Reaches(h, u, n, Table(id)) {
      assert !Reaches(h, v, n + 1, Table(id));
    }
  }
}
