/**
  The Lua/JSON value bridge. JSON values are those of sections 3 and 6 of
  RFC 8259; Lua tables live on a heap and are named by their position in
  it, so that they can be shared and can contain themselves.
*/
module LuaJson {
  import opened Wrappers

  const MAX_DEPTH := 128

  const I64_MIN := -0x8000_0000_0000_0000
  const I64_MAX := 0x7FFF_FFFF_FFFF_FFFF

  type I64 = i: int | I64_MIN <= i <= I64_MAX
  type NegI64 = i: int | I64_MIN <= i < 0 witness -1
  type U64 = i: int | 0 <= i <= U64_MAX

  /** A JSON number as the parser keeps it; a float is finite. */
  datatype Number = PosInt(u: U64) | NegInt(i: NegI64) | Float(f: real)

  datatype Json =
    | JNull
    | JBool(b: bool)
    | JNumber(n: Number)
    | JString(s: string)
    | JArray(items: seq<Json>)
    | JObject(fields: map<string, Json>)

  datatype F64 = Finite(r: real) | NotFinite

  /** A Lua value; `NullPtr` is the light userdata that stands for JSON null, `Bytes` a string that is not UTF-8. */
  datatype Value =
    | Nil
    | NullPtr
    | Boolean(b: bool)
    | Integer(i: I64)
    | Num(f: F64)
    | Str(s: string)
    | Bytes
    | Table(id: nat)
    | Unsupported

  /** A table key; a float key is known by the text Rust displays it as. */
  datatype Key = StrKey(s: string) | BytesKey | IntKey(i: I64) | NumKey(shown: string) | OtherKey(tag: nat)

  /** A table's metatable, as far as it can say "array": its `__jsontype`, and whether it is mlua's own array metatable. */
  datatype Meta = NoMeta | Meta(jsontype: Value, mluaArray: bool)

  /** A table: its sequence part up to the border, which may have holes, and its other entries. */
  datatype TableRec = TableRec(arr: seq<Value>, keyed: map<Key, Value>, meta: Meta)

  /** Tables by id; an id past the end names no table and is refused like any unsupported value. */
  type Heap = seq<TableRec>

  datatype Fault = TooDeep | NotANumber | NotUtf8 | BadKey | BadType

  // ----- scalars and tags -----

  function Digits(n: nat): string {
    if n < 10 then ["0123456789"[n]] else Digits(n / 10) + ["0123456789"[n % 10]]
  }

  function IntText(i: int): string {
    if i < 0 then "-" + Digits(-i) else Digits(i)
  }

  function KeyText(k: Key): Option<string> {
    match k
    case StrKey(s) => Some(s)
    case IntKey(i) => Some(IntText(i))
    case NumKey(shown) => Some(shown)
    case BytesKey => None
    case OtherKey(_) => None
  }

  function IntNumber(i: I64): Number {
    if i >= 0 then PosInt(i) else NegInt(i)
  }

  /** Whether a metatable says "array"; a `__jsontype` that is not UTF-8 is an error. */
  function IsTaggedArray(meta: Meta): Option<bool> {
    match meta
    case NoMeta => Some(false)
    case Meta(jsontype, mluaArray) =>
      if jsontype == Bytes then None
      else Some(jsontype == Str("array") || mluaArray)
  }

  const ARRAY_META := Meta(Str("array"), false)

  /**
    `u64 as f64` above `i64::MAX`, where doubles are 2048 apart: to the
    nearest, ties to the even one.
  */
  function RoundToF64(u: U64): int
    requires u > I64_MAX
  {
    var q, r := u / 2048, u % 2048;
    if r > 1024 || (r == 1024 && q % 2 == 1) then (q + 1) * 2048 else q * 2048
  }

  // ----- from Lua -----

  /** The depth left for recursion. */
  function Left(depth: nat): nat {
    if depth > MAX_DEPTH then 0 else MAX_DEPTH + 1 - depth
  }

  /** Whether `lua_to_json` succeeds, which no order of visiting entries can change. */
  ghost predicate Convertible(h: Heap, v: Value, depth: nat)
    decreases Left(depth)
  {
    && depth <= MAX_DEPTH
    && match v
       case Nil => true
       case NullPtr => true
       case Boolean(_) => true
       case Integer(_) => true
       case Num(f) => f.Finite?
       case Str(_) => true
       case Bytes => false
       case Unsupported => false
       case Table(id) =>
         && id < |h|
         && var t := h[id];
         if t.arr != [] then forall i :: 0 <= i < |t.arr| ==> Convertible(h, t.arr[i], depth + 1)
         else
           && IsTaggedArray(t.meta).Some?
           && (IsTaggedArray(t.meta).value
               || forall k :: k in t.keyed ==> KeyText(k).Some? && Convertible(h, t.keyed[k], depth + 1))
  }

  /**
    Whether `j` is an encoding of `v`. Only two keys with one text leave a
    choice: the entry visited last is the one that stays.
  */
  ghost predicate Encodes(h: Heap, v: Value, depth: nat, j: Json)
    decreases Left(depth)
  {
    && depth <= MAX_DEPTH
    && match v
       case Nil => j == JNull
       case NullPtr => j == JNull
       case Boolean(b) => j == JBool(b)
       case Integer(i) => j == JNumber(IntNumber(i))
       case Num(f) => f.Finite? && j == JNumber(Float(f.r))
       case Str(s) => j == JString(s)
       case Bytes => false
       case Unsupported => false
       case Table(id) =>
         && id < |h|
         && var t := h[id];
         if t.arr != [] then
           && j.JArray? && |j.items| == |t.arr|
           && forall i :: 0 <= i < |t.arr| ==> Encodes(h, t.arr[i], depth + 1, j.items[i])
         else
           && IsTaggedArray(t.meta).Some?
           && if IsTaggedArray(t.meta).value then j == JArray([])
              else j.JObject? && EncodesFields(h, t.keyed, depth, j.fields)
  }

  ghost predicate EncodesFields(h: Heap, keyed: map<Key, Value>, depth: nat, fields: map<string, Json>)
    requires depth <= MAX_DEPTH
    decreases Left(depth), 0
  {
    && (forall k :: k in keyed ==> KeyText(k).Some? && KeyText(k).value in fields)
    && (forall s :: s in fields ==>
          exists k :: k in keyed && KeyText(k) == Some(s) && Encodes(h, keyed[k], depth + 1, fields[s]))
  }

  /** Why a key has no text. */
  function KeyFault(k: Key): Fault {
    if k == BytesKey then NotUtf8 else BadKey
  }

  /** In which order `pairs` visits the keys of each table. */
  type Order = nat -> seq<Key>

  ghost predicate Lists(ks: seq<Key>, keys: set<Key>) {
    && (forall k :: k in ks <==> k in keys)
    && (forall i, j :: 0 <= i < j < |ks| ==> ks[i] != ks[j])
  }

  /** An order visits every key of every table, and none twice. */
  ghost predicate Ordered(h: Heap, order: Order) {
    forall id :: 0 <= id < |h| ==> Lists(order(id), h[id].keyed.Keys)
  }

  /** Whether the first `n` keys of a table have texts and their values convert. */
  ghost predicate Converts(h: Heap, order: Order, id: nat, n: nat, depth: nat)
    requires id < |h| && Ordered(h, order) && n <= |order(id)|
  {
    forall i :: 0 <= i < n ==>
      KeyText(order(id)[i]).Some? && Convertible(h, h[id].keyed[order(id)[i]], depth + 1)
  }

  /** The entries put into a map one after the other, a name met again taking the later value. */
  function PutAll<V>(names: seq<string>, vals: seq<V>): map<string, V>
    requires |names| == |vals|
  {
    if names == [] then map[]
    else PutAll(names[..|names| - 1], vals[..|names| - 1])[names[|names| - 1] := vals[|names| - 1]]
  }

  /** Where a name stands last. */
  ghost function LastAt(names: seq<string>, s: string): (i: nat)
    requires s in names
    ensures i < |names| && names[i] == s && s !in names[i + 1..]
  {
    if names[|names| - 1] == s then |names| - 1
    else
      var init := names[..|names| - 1];
      assert names == init + [names[|names| - 1]];
      var i := LastAt(init, s);
      assert names[i + 1..] == init[i + 1..] + [names[|names| - 1]];
      i
  }

  /** The names are all there, each with the value it was given last. */
  lemma {:induction false} PutAllMeans<V>(names: seq<string>, vals: seq<V>)
    requires |names| == |vals|
    ensures forall s :: s in PutAll(names, vals) <==> s in names
    ensures forall s :: s in names ==> PutAll(names, vals)[s] == vals[LastAt(names, s)]
  {
    if names != [] {
      var n := |names| - 1;
      PutAllMeans(names[..n], vals[..n]);
      assert names == names[..n] + [names[n]];
    }
  }

  /** What a convertible value becomes when `pairs` visits each table in a given order. */
  ghost function Converted(h: Heap, order: Order, v: Value, depth: nat): Json
    requires Ordered(h, order) && Convertible(h, v, depth)
    decreases Left(depth), 1, 0
  {
    match v
    case Nil => JNull
    case NullPtr => JNull
    case Boolean(b) => JBool(b)
    case Integer(i) => JNumber(IntNumber(i))
    case Num(f) => JNumber(Float(f.r))
    case Str(s) => JString(s)
    case Table(id) =>
      var t := h[id];
      if t.arr != [] then
        JArray(seq(|t.arr|, i requires 0 <= i < |t.arr| => Converted(h, order, t.arr[i], depth + 1)))
      else if IsTaggedArray(t.meta).value then JArray([])
      else JObject(ConvertedFields(h, order, id, |order(id)|, depth))
  }

  /** The object after the first `n` keys. */
  ghost function ConvertedFields(h: Heap, order: Order, id: nat, n: nat, depth: nat): map<string, Json>
    requires id < |h| && Ordered(h, order) && n <= |order(id)| && depth <= MAX_DEPTH
    requires Converts(h, order, id, n, depth)
    decreases Left(depth), 0, 1
  {
    PutAll(FirstNames(h, order, id, n, depth), FirstValues(h, order, id, n, depth))
  }

  ghost function FirstNames(h: Heap, order: Order, id: nat, n: nat, depth: nat): (names: seq<string>)
    requires id < |h| && Ordered(h, order) && n <= |order(id)| && Converts(h, order, id, n, depth)
    ensures |names| == n && forall i :: 0 <= i < n ==> KeyText(order(id)[i]) == Some(names[i])
  {
    seq(n, i requires 0 <= i < n => KeyText(order(id)[i]).value)
  }

  ghost function FirstValues(h: Heap, order: Order, id: nat, n: nat, depth: nat): (vals: seq<Json>)
    requires id < |h| && Ordered(h, order) && n <= |order(id)| && depth <= MAX_DEPTH
    requires Converts(h, order, id, n, depth)
    ensures |vals| == n
    ensures forall i :: 0 <= i < n ==> vals[i] == Converted(h, order, h[id].keyed[order(id)[i]], depth + 1)
    decreases Left(depth), 0, 0
  {
    seq(n, i requires 0 <= i < n => Converted(h, order, h[id].keyed[order(id)[i]], depth + 1))
  }

  lemma OneMoreField(h: Heap, order: Order, id: nat, n: nat, depth: nat)
    requires id < |h| && Ordered(h, order) && n < |order(id)| && depth <= MAX_DEPTH
    requires Converts(h, order, id, n + 1, depth)
    ensures ConvertedFields(h, order, id, n + 1, depth)
            == ConvertedFields(h, order, id, n, depth)
               [KeyText(order(id)[n]).value := Converted(h, order, h[id].keyed[order(id)[n]], depth + 1)]
  {
    assert FirstNames(h, order, id, n + 1, depth)[..n] == FirstNames(h, order, id, n, depth);
    assert FirstValues(h, order, id, n + 1, depth)[..n] == FirstValues(h, order, id, n, depth);
  }

  lemma FieldsEncode(h: Heap, order: Order, id: nat, depth: nat)
    requires id < |h| && Ordered(h, order) && depth <= MAX_DEPTH && Converts(h, order, id, |order(id)|, depth)
    requires forall k :: k in h[id].keyed ==>
               Convertible(h, h[id].keyed[k], depth + 1)
               && Encodes(h, h[id].keyed[k], depth + 1, Converted(h, order, h[id].keyed[k], depth + 1))
    ensures EncodesFields(h, h[id].keyed, depth, ConvertedFields(h, order, id, |order(id)|, depth))
  {
    var ks := order(id);
    var names, vals := FirstNames(h, order, id, |ks|, depth), FirstValues(h, order, id, |ks|, depth);
    PutAllMeans(names, vals);
    forall k | k in h[id].keyed ensures KeyText(k).Some? && KeyText(k).value in PutAll(names, vals) {
      var i :| 0 <= i < |ks| && ks[i] == k;
      assert names[i] in names;
    }
    forall s | s in PutAll(names, vals)
      ensures exists k :: k in h[id].keyed && KeyText(k) == Some(s)
                          && Encodes(h, h[id].keyed[k], depth + 1, PutAll(names, vals)[s])
    {
      var i := LastAt(names, s);
      assert ks[i] in h[id].keyed;
    }
  }

  /** In every order the result is an encoding of the value. */
  lemma {:induction false} ConvertedEncodes(h: Heap, order: Order, v: Value, depth: nat)
    requires Ordered(h, order) && Convertible(h, v, depth)
    ensures Encodes(h, v, depth, Converted(h, order, v, depth))
    decreases Left(depth)
  {
    match v
    case Table(id) =>
      var t := h[id];
      if t.arr != [] {
        forall i | 0 <= i < |t.arr|
          ensures Encodes(h, t.arr[i], depth + 1, Converted(h, order, t.arr[i], depth + 1))
        {
          ConvertedEncodes(h, order, t.arr[i], depth + 1);
        }
      } else if !IsTaggedArray(t.meta).value {
        forall k | k in t.keyed
          ensures Encodes(h, t.keyed[k], depth + 1, Converted(h, order, t.keyed[k], depth + 1))
        {
          ConvertedEncodes(h, order, t.keyed[k], depth + 1);
        }
        FieldsEncode(h, order, id, depth);
      }
    case _ =>
  }

  /** The fault a value that does not convert is refused with: that of the first entry that fails. */
  ghost predicate FailsWith(h: Heap, order: Order, v: Value, depth: nat, f: Fault)
    requires Ordered(h, order)
    decreases Left(depth)
  {
    if depth > MAX_DEPTH then f == TooDeep
    else
      match v
      case Num(n) => n == NotFinite && f == NotANumber
      case Bytes => f == NotUtf8
      case Unsupported => f == BadType
      case Table(id) =>
        if id >= |h| then f == BadType
        else if h[id].arr != [] then
          exists i :: 0 <= i < |h[id].arr| && FailsWith(h, order, h[id].arr[i], depth + 1, f)
                      && forall n :: 0 <= n < i ==> Convertible(h, h[id].arr[n], depth + 1)
        else if IsTaggedArray(h[id].meta).None? then f == NotUtf8
        else !IsTaggedArray(h[id].meta).value && FieldFails(h, order, id, depth, f)
      case _ => false
  }

  ghost predicate FieldFails(h: Heap, order: Order, id: nat, depth: nat, f: Fault)
    requires id < |h| && Ordered(h, order) && depth <= MAX_DEPTH
    decreases Left(depth), 0
  {
    exists i :: 0 <= i < |order(id)| && Converts(h, order, id, i, depth)
                && var k := order(id)[i];
                if KeyText(k).None? then f == KeyFault(k) else FailsWith(h, order, h[id].keyed[k], depth + 1, f)
  }

  lemma FieldFault(h: Heap, order: Order, id: nat, i: nat, depth: nat, f: Fault)
    requires id < |h| && Ordered(h, order) && depth <= MAX_DEPTH && i < |order(id)| && Converts(h, order, id, i, depth)
    requires var k := order(id)[i];
             if KeyText(k).None? then f == KeyFault(k)
             else FailsWith(h, order, h[id].keyed[k], depth + 1, f) && !Convertible(h, h[id].keyed[k], depth + 1)
    ensures FieldFails(h, order, id, depth, f) && !Converts(h, order, id, |order(id)|, depth)
  {
  }

  lemma FieldAdded(h: Heap, order: Order, id: nat, i: nat, depth: nat)
    requires id < |h| && Ordered(h, order) && depth <= MAX_DEPTH && i < |order(id)| && Converts(h, order, id, i, depth)
    requires KeyText(order(id)[i]).Some? && Convertible(h, h[id].keyed[order(id)[i]], depth + 1)
    ensures Converts(h, order, id, i + 1, depth)
    ensures ConvertedFields(h, order, id, i + 1, depth)
            == ConvertedFields(h, order, id, i, depth)
               [KeyText(order(id)[i]).value := Converted(h, order, h[id].keyed[order(id)[i]], depth + 1)]
  {
    OneMoreField(h, order, id, i, depth);
  }

  /** A table read as a sequence, once its items are. */
  lemma ItemsAreTable(h: Heap, order: Order, id: nat, depth: nat, items: seq<Json>)
    requires id < |h| && Ordered(h, order) && Convertible(h, Table(id), depth) && h[id].arr != []
    requires |items| == |h[id].arr|
    requires forall i :: 0 <= i < |items| ==>
               Convertible(h, h[id].arr[i], depth + 1) && items[i] == Converted(h, order, h[id].arr[i], depth + 1)
    ensures JArray(items) == Converted(h, order, Table(id), depth)
  {
    assert items == Converted(h, order, Table(id), depth).items;
  }

  /** A table read by its keys converts exactly when they all do. */
  lemma FieldsAreTable(h: Heap, order: Order, id: nat, depth: nat)
    requires id < |h| && Ordered(h, order) && depth <= MAX_DEPTH
    requires h[id].arr == [] && IsTaggedArray(h[id].meta) == Some(false)
    ensures Converts(h, order, id, |order(id)|, depth) <==> Convertible(h, Table(id), depth)
  {
    if Converts(h, order, id, |order(id)|, depth) {
      forall k | k in h[id].keyed ensures KeyText(k).Some? && Convertible(h, h[id].keyed[k], depth + 1) {
        assert k in order(id);
      }
    }
  }

  method LuaToJson(h: Heap, order: Order, v: Value, depth: nat) returns (r: Result<Json, Fault>)
    requires Ordered(h, order)
    ensures r.Ok? <==> Convertible(h, v, depth)
    ensures r.Ok? ==> r.value == Converted(h, order, v, depth) && Encodes(h, v, depth, r.value)
    ensures r.Err? ==> FailsWith(h, order, v, depth, r.error)
    decreases Left(depth), 1, 0
  {
    if depth > MAX_DEPTH {
      return Err(TooDeep);
    }
    match v
    case Nil => return Ok(JNull);
    case NullPtr => return Ok(JNull);
    case Boolean(b) => return Ok(JBool(b));
    case Integer(i) => return Ok(JNumber(IntNumber(i)));
    case Num(f) =>
      return if f.Finite? then Ok(JNumber(Float(f.r))) else Err(NotANumber);
    case Str(s) => return Ok(JString(s));
    case Bytes => return Err(NotUtf8);
    case Unsupported => return Err(BadType);
    case Table(id) =>
      if id >= |h| {
        return Err(BadType);
      }
      r := TableToJson(h, order, id, depth);
      if r.Ok? {
        ConvertedEncodes(h, order, v, depth);
      }
  }

  /** The branches for a table. */
  method TableToJson(h: Heap, order: Order, id: nat, depth: nat) returns (r: Result<Json, Fault>)
    requires Ordered(h, order) && id < |h| && depth <= MAX_DEPTH
    ensures r.Ok? <==> Convertible(h, Table(id), depth)
    ensures r.Ok? ==> r.value == Converted(h, order, Table(id), depth)
    ensures r.Err? ==> FailsWith(h, order, Table(id), depth, r.error)
    decreases Left(depth), 0, 1
  {
    var t := h[id];
    if t.arr != [] {
      r := ItemsToJson(h, order, t.arr, depth);
      if r.Ok? {
        ItemsAreTable(h, order, id, depth, r.value.items);
      }
    } else if IsTaggedArray(t.meta).None? {
      r := Err(NotUtf8);
    } else if IsTaggedArray(t.meta).value {
      r := Ok(JArray([]));
    } else {
      r := FieldsToJson(h, order, id, depth);
      FieldsAreTable(h, order, id, depth);
    }
  }

  /** The loop over a sequence. */
  method ItemsToJson(h: Heap, order: Order, items: seq<Value>, depth: nat) returns (r: Result<Json, Fault>)
    requires Ordered(h, order) && depth <= MAX_DEPTH
    ensures r.Ok? <==> forall i :: 0 <= i < |items| ==> Convertible(h, items[i], depth + 1)
    ensures r.Ok? ==>
              && r.value.JArray? && |r.value.items| == |items|
              && forall i :: 0 <= i < |items| ==> r.value.items[i] == Converted(h, order, items[i], depth + 1)
    ensures r.Err? ==>
              exists i :: 0 <= i < |items| && FailsWith(h, order, items[i], depth + 1, r.error)
                          && forall n :: 0 <= n < i ==> Convertible(h, items[n], depth + 1)
    decreases Left(depth), 0, 0
  {
    var arr := [];
    for i := 0 to |items|
      invariant |arr| == i
      invariant forall n :: 0 <= n < i ==>
        Convertible(h, items[n], depth + 1) && arr[n] == Converted(h, order, items[n], depth + 1)
    {
      var item := LuaToJson(h, order, items[i], depth + 1);
      if item.Err? {
        return item;
      }
      arr := arr + [item.value];
    }
    return Ok(JArray(arr));
  }

  /** The `pairs` loop. */
  method FieldsToJson(h: Heap, order: Order, id: nat, depth: nat) returns (r: Result<Json, Fault>)
    requires id < |h| && Ordered(h, order) && depth <= MAX_DEPTH
    ensures r.Ok? <==> Converts(h, order, id, |order(id)|, depth)
    ensures r.Ok? ==> r.value == JObject(ConvertedFields(h, order, id, |order(id)|, depth))
    ensures r.Err? ==> FieldFails(h, order, id, depth, r.error)
    decreases Left(depth), 0, 0
  {
    var fields: map<string, Json> := map[];
    for i := 0 to |order(id)|
      invariant Converts(h, order, id, i, depth)
      invariant fields == ConvertedFields(h, order, id, i, depth)
    {
      var k := order(id)[i];
      if KeyText(k).None? {
        FieldFault(h, order, id, i, depth, KeyFault(k));
        return Err(KeyFault(k));
      }
      var item := LuaToJson(h, order, h[id].keyed[k], depth + 1);
      if item.Err? {
        FieldFault(h, order, id, i, depth, item.error);
        return item;
      }
      FieldAdded(h, order, id, i, depth);
      fields := fields[KeyText(k).value := item.value];
    }
    return Ok(JObject(fields));
  }

  // ----- to Lua -----

  /** Whether a value met at `depth` has nothing in it past the depth limit. */
  ghost predicate Shallow(j: Json, depth: nat)
    decreases j
  {
    && depth <= MAX_DEPTH
    && match j
       case JArray(items) => forall i :: 0 <= i < |items| ==> Shallow(items[i], depth + 1)
       case JObject(fields) => forall s :: s in fields ==> Shallow(fields[s], depth + 1)
       case _ => true
  }

  /** A number as Lua holds it: an `i64` as an integer, anything else as a double. */
  function NarrowNumber(n: Number): Number {
    if n.PosInt? && n.u > I64_MAX then Float(RoundToF64(n.u) as real) else n
  }

  /** Whether `k` is `j` with every number narrowed and nothing else changed. */
  ghost predicate Narrowed(j: Json, k: Json)
    decreases j
  {
    match j
    case JNumber(n) => k == JNumber(NarrowNumber(n))
    case JArray(items) =>
      && k.JArray? && |k.items| == |items|
      && forall i :: 0 <= i < |items| ==> Narrowed(items[i], k.items[i])
    case JObject(fields) =>
      && k.JObject? && k.fields.Keys == fields.Keys
      && forall s :: s in fields ==> Narrowed(fields[s], k.fields[s])
    case _ => k == j
  }

  function NumberValue(n: Number): Value {
    match NarrowNumber(n)
    case PosInt(u) => Integer(u)
    case NegInt(i) => Integer(i)
    case Float(f) => Num(Finite(f))
  }

  /** Whether Lua value `v` on heap `h` is a faithful picture of `j`. */
  ghost predicate Represents(h: Heap, v: Value, j: Json)
    decreases j
  {
    match j
    case JNull => v == NullPtr
    case JBool(b) => v == Boolean(b)
    case JNumber(n) => v == NumberValue(n)
    case JString(s) => v == Str(s)
    case JArray(items) =>
      && v.Table? && v.id < |h|
      && h[v.id] == TableRec(h[v.id].arr, map[], if items == [] then ARRAY_META else NoMeta)
      && |h[v.id].arr| == |items|
      && forall i :: 0 <= i < |items| ==> Represents(h, h[v.id].arr[i], items[i])
    case JObject(fields) =>
      && v.Table? && v.id < |h|
      && h[v.id] == TableRec([], h[v.id].keyed, NoMeta)
      && (forall k :: k in h[v.id].keyed <==> k.StrKey? && k.s in fields)
      && forall s :: s in fields ==> Represents(h, h[v.id].keyed[StrKey(s)], fields[s])
  }

  /** Building more tables leaves what is built as it was. */
  lemma {:induction false} RepresentsGrows(h: Heap, more: Heap, v: Value, j: Json)
    requires h <= more && Represents(h, v, j)
    ensures Represents(more, v, j)
    decreases j
  {
    match j
    case JArray(items) =>
      forall i | 0 <= i < |items| ensures Represents(more, more[v.id].arr[i], items[i]) {
        RepresentsGrows(h, more, h[v.id].arr[i], items[i]);
      }
    case JObject(fields) =>
      forall s | s in fields ensures Represents(more, more[v.id].keyed[StrKey(s)], fields[s]) {
        RepresentsGrows(h, more, h[v.id].keyed[StrKey(s)], fields[s]);
      }
    case _ =>
  }

  method JsonToLua(h: Heap, j: Json, depth: nat) returns (after: Heap, r: Result<Value, Fault>)
    ensures h <= after
    ensures r.Ok? <==> Shallow(j, depth)
    ensures r.Ok? ==> Represents(after, r.value, j)
    ensures r.Err? ==> r.error == TooDeep
    decreases j, 1
  {
    after := h;
    if depth > MAX_DEPTH {
      return h, Err(TooDeep);
    }
    match j
    case JNull => r := Ok(NullPtr);
    case JBool(b) => r := Ok(Boolean(b));
    case JNumber(n) => r := Ok(NumberValue(n));
    case JString(s) => r := Ok(Str(s));
    case JArray(items) =>
      var arr: seq<Value> := [];
      for i := 0 to |items|
        invariant h <= after && |arr| == i
        invariant forall n :: 0 <= n < i ==>
          Shallow(items[n], depth + 1) && Represents(after, arr[n], items[n])
      {
        var item;
        ghost var was := after;
        after, item := JsonToLua(after, items[i], depth + 1);
        if item.Err? {
          return after, item;
        }
        forall n | 0 <= n < i ensures Represents(after, arr[n], items[n]) {
          RepresentsGrows(was, after, arr[n], items[n]);
        }
        arr := arr + [item.value];
      }
      ghost var was := after;
      after := after + [TableRec(arr, map[], if items == [] then ARRAY_META else NoMeta)];
      forall n | 0 <= n < |items| ensures Represents(after, arr[n], items[n]) {
        RepresentsGrows(was, after, arr[n], items[n]);
      }
      r := Ok(Table(|after| - 1));
    case JObject(fields) =>
      after, r := FieldsToLua(h, j, depth);
  }

  /** Whether the entries `done` of an object have been set, each to a picture of its value. */
  ghost predicate Pictured(h: Heap, keyed: map<Key, Value>, fields: map<string, Json>, done: set<string>)
    requires done <= fields.Keys
  {
    && (forall k :: k in keyed <==> k.StrKey? && k.s in done)
    && forall s :: s in done ==> Represents(h, keyed[StrKey(s)], fields[s])
  }

  lemma PicturedGrows(h: Heap, more: Heap, keyed: map<Key, Value>, fields: map<string, Json>, done: set<string>)
    requires done <= fields.Keys && h <= more && Pictured(h, keyed, fields, done)
    ensures Pictured(more, keyed, fields, done)
  {
    forall s | s in done ensures Represents(more, keyed[StrKey(s)], fields[s]) {
      RepresentsGrows(h, more, keyed[StrKey(s)], fields[s]);
    }
  }

  lemma PicturedStep(h: Heap, more: Heap, keyed: map<Key, Value>, fields: map<string, Json>, done: set<string>, s: string, v: Value)
    requires done <= fields.Keys && h <= more && Pictured(h, keyed, fields, done)
    requires s in fields && Represents(more, v, fields[s])
    ensures Pictured(more, keyed[StrKey(s) := v], fields, done + {s})
  {
    PicturedGrows(h, more, keyed, fields, done);
  }

  lemma {:induction false} PicturedWhole(h: Heap, keyed: map<Key, Value>, fields: map<string, Json>)
    requires Pictured(h, keyed, fields, fields.Keys)
    ensures Represents(h + [TableRec([], keyed, NoMeta)], Table(|h|), JObject(fields))
  {
    PicturedGrows(h, h + [TableRec([], keyed, NoMeta)], keyed, fields, fields.Keys);
  }

  ghost predicate ShallowFields(fields: map<string, Json>, done: set<string>, depth: nat)
    requires done <= fields.Keys
  {
    forall s :: s in done ==> Shallow(fields[s], depth + 1)
  }

  lemma WholeObject(h: Heap, more: Heap, keyed: map<Key, Value>, j: Json, depth: nat)
    requires j.JObject? && depth <= MAX_DEPTH && h <= more
    requires ShallowFields(j.fields, j.fields.Keys, depth) && Pictured(more, keyed, j.fields, j.fields.Keys)
    ensures Shallow(j, depth) && h <= more + [TableRec([], keyed, NoMeta)]
    ensures Represents(more + [TableRec([], keyed, NoMeta)], Table(|more|), j)
  {
    PicturedWhole(more, keyed, j.fields);
  }

  lemma DeepField(j: Json, s: string, depth: nat)
    requires j.JObject? && s in j.fields && !Shallow(j.fields[s], depth + 1)
    ensures !Shallow(j, depth)
  {
  }

  /** One more entry set. */
  lemma FieldPictured(h: Heap, more: Heap, keyed: map<Key, Value>, j: Json, done: set<string>, s: string, v: Value, depth: nat)
    requires j.JObject? && done <= j.fields.Keys && h <= more && s in j.fields
    requires ShallowFields(j.fields, done, depth) && Pictured(h, keyed, j.fields, done)
    requires Shallow(j.fields[s], depth + 1) && Represents(more, v, j.fields[s])
    ensures ShallowFields(j.fields, done + {s}, depth) && Pictured(more, keyed[StrKey(s) := v], j.fields, done + {s})
  {
    PicturedStep(h, more, keyed, j.fields, done, s, v);
  }

  /** The object case; the entries may be set in any order. */
  method FieldsToLua(h: Heap, j: Json, depth: nat) returns (after: Heap, r: Result<Value, Fault>)
    requires j.JObject? && depth <= MAX_DEPTH
    ensures h <= after
    ensures r.Ok? <==> Shallow(j, depth)
    ensures r.Ok? ==> Represents(after, r.value, j)
    ensures r.Err? ==> r.error == TooDeep
    decreases j, 0
  {
    var todo: set<string>, keyed: map<Key, Value> := j.fields.Keys, map[];
    ghost var done: set<string> := {};
    after := h;
    while todo != {}
      invariant h <= after && done + todo == j.fields.Keys
      invariant Pictured(after, keyed, j.fields, done)
      invariant ShallowFields(j.fields, done, depth)
      decreases |todo|
    {
      var s :| s in todo;
      var item;
      ghost var was := after;
      after, item := JsonToLua(after, j.fields[s], depth + 1);
      if item.Err? {
        DeepField(j, s, depth);
        return after, item;
      }
      FieldPictured(was, after, keyed, j, done, s, item.value, depth);
      todo, keyed, done := todo - {s}, keyed[StrKey(s) := item.value], done + {s};
    }
    assert done == j.fields.Keys;
    WholeObject(h, after, keyed, j, depth);
    r := Ok(Table(|after|));
    after := after + [TableRec([], keyed, NoMeta)];
  }

  // ----- round trips -----

  lemma KeyOf(h: Heap, keyed: map<Key, Value>, depth: nat, fields: map<string, Json>, s: string) returns (k: Key)
    requires depth <= MAX_DEPTH && EncodesFields(h, keyed, depth, fields) && s in fields
    ensures k in keyed && KeyText(k) == Some(s) && Encodes(h, keyed[k], depth + 1, fields[s])
  {
    k :| k in keyed && KeyText(k) == Some(s) && Encodes(h, keyed[k], depth + 1, fields[s]);
  }

  /** An object's names are the texts of the table's keys, neither more nor fewer. */
  lemma FieldNames(h: Heap, keyed: map<Key, Value>, depth: nat, fields: map<string, Json>)
    requires depth <= MAX_DEPTH && EncodesFields(h, keyed, depth, fields)
    ensures fields.Keys == set k | k in keyed && KeyText(k).Some? :: KeyText(k).value
  {
  }

  /** A picture of a JSON value that is not too deep converts back. */
  lemma {:induction false} RepresentedConverts(h: Heap, v: Value, j: Json, depth: nat)
    requires Represents(h, v, j) && Shallow(j, depth)
    ensures Convertible(h, v, depth)
    decreases j
  {
    match j
    case JArray(items) =>
      forall i | 0 <= i < |items| ensures Convertible(h, h[v.id].arr[i], depth + 1) {
        RepresentedConverts(h, h[v.id].arr[i], items[i], depth + 1);
      }
    case JObject(fields) =>
      forall k | k in h[v.id].keyed ensures KeyText(k).Some? && Convertible(h, h[v.id].keyed[k], depth + 1) {
        RepresentedConverts(h, h[v.id].keyed[k], fields[k.s], depth + 1);
      }
    case _ =>
  }

  /** And what it converts to is the value it pictures, its numbers narrowed. */
  lemma {:induction false} RepresentedEncodes(h: Heap, v: Value, j: Json, depth: nat, k: Json)
    requires Represents(h, v, j) && Encodes(h, v, depth, k)
    ensures Narrowed(j, k)
    decreases j
  {
    match j
    case JArray(items) =>
      if items != [] {
        forall i | 0 <= i < |items| ensures Narrowed(items[i], k.items[i]) {
          RepresentedEncodes(h, h[v.id].arr[i], items[i], depth + 1, k.items[i]);
        }
      }
    case JObject(fields) =>
      var keyed := h[v.id].keyed;
      FieldNames(h, keyed, depth, k.fields);
      assert forall s :: s in fields ==> StrKey(s) in keyed && KeyText(StrKey(s)) == Some(s);
      assert k.fields.Keys == fields.Keys;
      forall s | s in fields ensures Narrowed(fields[s], k.fields[s]) {
        var key := KeyOf(h, keyed, depth, k.fields, s);
        assert key == StrKey(s);
        RepresentedEncodes(h, keyed[key], fields[s], depth + 1, k.fields[s]);
      }
    case _ =>
  }

  /**
    Into Lua and back: every value nested at most 128 deep comes back with
    its numbers narrowed and nothing else changed, empty arrays, empty
    objects and nulls included, and so unchanged exactly when its numbers
    fit; every deeper one is refused.
  */
  method RoundTrip(h: Heap, pairs: Heap -> Order, j: Json) returns (r: Result<Json, Fault>)
    requires forall g :: Ordered(g, pairs(g))
    ensures r.Ok? <==> Shallow(j, 0)
    ensures r.Ok? ==> Narrowed(j, r.value) && (r.value == j <==> NumbersFit(j))
    ensures r.Err? ==> r.error == TooDeep
  {
    var after, v := JsonToLua(h, j, 0);
    if v.Err? {
      return Err(v.error);
    }
    RepresentedConverts(after, v.value, j, 0);
    r := LuaToJson(after, pairs(after), v.value, 0);
    RepresentedEncodes(after, v.value, j, 0, r.value);
    TripIsExact(j, r.value);
  }

  /** Whether every number is an `i64` or a double already. */
  ghost predicate NumbersFit(j: Json)
    decreases j
  {
    match j
    case JNumber(n) => n.PosInt? ==> n.u <= I64_MAX
    case JArray(items) => forall i :: 0 <= i < |items| ==> NumbersFit(items[i])
    case JObject(fields) => forall s :: s in fields ==> NumbersFit(fields[s])
    case _ => true
  }

  /** Narrowing leaves no choice. */
  lemma {:induction false} NarrowedIsUnique(j: Json, k: Json, l: Json)
    requires Narrowed(j, k) && Narrowed(j, l)
    ensures k == l
    decreases j
  {
    match j
    case JArray(items) =>
      forall i | 0 <= i < |items| ensures k.items[i] == l.items[i] { NarrowedIsUnique(items[i], k.items[i], l.items[i]); }
    case JObject(fields) =>
      forall s | s in fields ensures k.fields[s] == l.fields[s] { NarrowedIsUnique(fields[s], k.fields[s], l.fields[s]); }
    case _ =>
  }

  lemma {:induction false} NarrowedFits(j: Json, k: Json)
    requires Narrowed(j, k)
    ensures NumbersFit(k)
    decreases j
  {
    match j
    case JArray(items) =>
      forall i | 0 <= i < |items| ensures NumbersFit(k.items[i]) { NarrowedFits(items[i], k.items[i]); }
    case JObject(fields) =>
      forall s | s in fields ensures NumbersFit(k.fields[s]) { NarrowedFits(fields[s], k.fields[s]); }
    case _ =>
  }

  lemma {:induction false} FitsIsNarrowed(j: Json)
    requires NumbersFit(j)
    ensures Narrowed(j, j)
    decreases j
  {
    match j
    case JArray(items) =>
      forall i | 0 <= i < |items| ensures Narrowed(items[i], items[i]) { FitsIsNarrowed(items[i]); }
    case JObject(fields) =>
      forall s | s in fields ensures Narrowed(fields[s], fields[s]) { FitsIsNarrowed(fields[s]); }
    case _ =>
  }

  /** A value comes back the same exactly when its numbers fit. */
  lemma {:induction false} TripIsExact(j: Json, k: Json)
    requires Narrowed(j, k)
    ensures k == j <==> NumbersFit(j)
  {
    NarrowedFits(j, k);
    if NumbersFit(j) {
      FitsIsNarrowed(j);
      NarrowedIsUnique(j, k, j);
    }
  }

  /** Integers past `i64::MAX` settle after one trip: narrowing again changes nothing. */
  lemma {:induction false} NarrowingSettles(j: Json, k: Json, l: Json)
    requires Narrowed(j, k) && Narrowed(k, l)
    ensures l == k
  {
    NarrowedFits(j, k);
    TripIsExact(k, l);
  }

  /** Narrowing does not deepen a value. */
  lemma {:induction false} NarrowedShallow(j: Json, k: Json, depth: nat)
    requires Narrowed(j, k)
    ensures Shallow(j, depth) <==> Shallow(k, depth)
    decreases j
  {
    match j
    case JArray(items) =>
      forall i | 0 <= i < |items| ensures Shallow(items[i], depth + 1) <==> Shallow(k.items[i], depth + 1) {
        NarrowedShallow(items[i], k.items[i], depth + 1);
      }
    case JObject(fields) =>
      forall s | s in fields ensures Shallow(fields[s], depth + 1) <==> Shallow(k.fields[s], depth + 1) {
        NarrowedShallow(fields[s], k.fields[s], depth + 1);
      }
    case _ =>
  }

  /** What settling costs: at most 1024, and nothing exactly for the multiples of 2048. */
  lemma RoundingError(u: U64)
    requires u > I64_MAX
    ensures -1024 <= RoundToF64(u) - u <= 1024
    ensures RoundToF64(u) == u <==> u % 2048 == 0
  {
  }

  /** Whatever `lua_to_json` returns has settled already. */
  lemma {:induction false} EncodedFits(h: Heap, v: Value, depth: nat, j: Json)
    requires Encodes(h, v, depth, j)
    ensures NumbersFit(j)
    decreases Left(depth)
  {
    match v
    case Table(id) =>
      var t := h[id];
      if t.arr != [] {
        forall i | 0 <= i < |j.items| ensures NumbersFit(j.items[i]) {
          EncodedFits(h, t.arr[i], depth + 1, j.items[i]);
        }
      } else if !IsTaggedArray(t.meta).value {
        assert EncodesFields(h, t.keyed, depth, j.fields);
        forall s | s in j.fields ensures NumbersFit(j.fields[s]) {
          var k := KeyOf(h, t.keyed, depth, j.fields, s);
          EncodedFits(h, t.keyed[k], depth + 1, j.fields[s]);
        }
      }
    case _ =>
  }

  /** And it is shallow enough to go back in. */
  lemma {:induction false} EncodedShallow(h: Heap, v: Value, depth: nat, j: Json)
    requires Encodes(h, v, depth, j)
    ensures Shallow(j, depth)
    decreases Left(depth)
  {
    match v
    case Table(id) =>
      var t := h[id];
      if t.arr != [] {
        forall i | 0 <= i < |j.items| ensures Shallow(j.items[i], depth + 1) {
          EncodedShallow(h, t.arr[i], depth + 1, j.items[i]);
        }
      } else if !IsTaggedArray(t.meta).value {
        assert EncodesFields(h, t.keyed, depth, j.fields);
        forall s | s in j.fields ensures Shallow(j.fields[s], depth + 1) {
          var k := KeyOf(h, t.keyed, depth, j.fields, s);
          EncodedShallow(h, t.keyed[k], depth + 1, j.fields[s]);
        }
      }
    case _ =>
  }

  /** So every value that comes out of Lua survives a further trip exactly, with no exception for numbers. */
  lemma SurvivesTrip(h: Heap, v: Value, depth: nat, j: Json)
    requires Encodes(h, v, depth, j)
    ensures Shallow(j, 0) && forall k :: Narrowed(j, k) <==> k == j
  {
    EncodedFits(h, v, depth, j);
    EncodedShallow(h, v, depth, j);
    ShallowHigher(j, depth, 0);
    FitsIsNarrowed(j);
    forall k | Narrowed(j, k) ensures k == j { TripIsExact(j, k); }
  }

  lemma {:induction false} ShallowHigher(j: Json, depth: nat, higher: nat)
    requires Shallow(j, depth) && higher <= depth
    ensures Shallow(j, higher)
    decreases j
  {
    match j
    case JArray(items) =>
      forall i | 0 <= i < |items| ensures Shallow(items[i], higher + 1) { ShallowHigher(items[i], depth + 1, higher + 1); }
    case JObject(fields) =>
      forall s | s in fields ensures Shallow(fields[s], higher + 1) { ShallowHigher(fields[s], depth + 1, higher + 1); }
    case _ =>
  }

  /** The least bound on a set of numbers. */
  ghost function Sup(ns: set<nat>): (m: nat)
    ensures forall n :: n in ns ==> n <= m
    ensures ns != {} ==> m in ns
    ensures ns == {} ==> m == 0
  {
    if ns == {} then 0
    else
      var n :| n in ns;
      var m := Sup(ns - {n});
      assert forall x :: x in ns ==> x == n || x in ns - {n};
      if n < m then m else n
  }

  lemma SupWithin(ns: set<nat>, a: nat, b: nat)
    ensures a + Sup(ns) <= b <==> a <= b && forall n :: n in ns ==> a + n <= b
  {
  }

  /** How many arrays and objects are around the innermost value. */
  ghost function Height(j: Json): nat
    decreases j
  {
    match j
    case JArray(items) => Sup(set i | 0 <= i < |items| :: 1 + Height(items[i]))
    case JObject(fields) => Sup(set s | s in fields :: 1 + Height(fields[s]))
    case _ => 0
  }

  lemma ArrayNesting(items: seq<Json>, depth: nat)
    requires forall i :: 0 <= i < |items| ==> (Shallow(items[i], depth + 1) <==> depth + (1 + Height(items[i])) <= MAX_DEPTH)
    ensures Shallow(JArray(items), depth) <==> depth + Height(JArray(items)) <= MAX_DEPTH
  {
    var ns := set i | 0 <= i < |items| :: 1 + Height(items[i]);
    assert forall i :: 0 <= i < |items| ==> 1 + Height(items[i]) in ns;
    SupWithin(ns, depth, MAX_DEPTH);
  }

  lemma ObjectNesting(fields: map<string, Json>, depth: nat)
    requires forall s :: s in fields ==> (Shallow(fields[s], depth + 1) <==> depth + (1 + Height(fields[s])) <= MAX_DEPTH)
    ensures Shallow(JObject(fields), depth) <==> depth + Height(JObject(fields)) <= MAX_DEPTH
  {
    var ns := set s | s in fields :: 1 + Height(fields[s]);
    assert forall s :: s in fields ==> 1 + Height(fields[s]) in ns;
    SupWithin(ns, depth, MAX_DEPTH);
  }

  /** The limit is exactly 128 levels of nesting, whatever the shape: height 128 goes in, 129 does not. */
  lemma {:induction false} NestingLimit(j: Json, depth: nat)
    ensures Shallow(j, depth) <==> depth + Height(j) <= MAX_DEPTH
    decreases j
  {
    match j
    case JArray(items) =>
      forall i | 0 <= i < |items|
        ensures Shallow(items[i], depth + 1) <==> depth + (1 + Height(items[i])) <= MAX_DEPTH
      {
        NestingLimit(items[i], depth + 1);
      }
      ArrayNesting(items, depth);
    case JObject(fields) =>
      forall s | s in fields
        ensures Shallow(fields[s], depth + 1) <==> depth + (1 + Height(fields[s])) <= MAX_DEPTH
      {
        NestingLimit(fields[s], depth + 1);
      }
      ObjectNesting(fields, depth);
    case _ =>
  }

  // ----- trips made in a row -----

  /** Integers past `i64::MAX` settle after one trip: a second succeeds and changes nothing. */
  method TwoTrips(h: Heap, g: Heap, pairs: Heap -> Order, j: Json) returns (first: Result<Json, Fault>, second: Result<Json, Fault>)
    requires forall g :: Ordered(g, pairs(g))
    ensures first.Ok? <==> Height(j) <= MAX_DEPTH
    ensures first.Ok? ==> second == first
  {
    NestingLimit(j, 0);
    first := RoundTrip(h, pairs, j);
    second := first;
    if first.Ok? {
      second := RoundTrip(g, pairs, first.value);
      NarrowedShallow(j, first.value, 0);
      NarrowingSettles(j, first.value, second.value);
    }
  }

  /** Out of Lua, into Lua and out again: every value `lua_to_json` returns comes back the same. */
  method OutAndBack(h: Heap, order: Order, v: Value, g: Heap, pairs: Heap -> Order)
    returns (out: Result<Json, Fault>, again: Result<Json, Fault>)
    requires Ordered(h, order) && forall g :: Ordered(g, pairs(g))
    ensures out.Ok? <==> Convertible(h, v, 0)
    ensures out.Ok? ==> again == out
  {
    out := LuaToJson(h, order, v, 0);
    again := out;
    if out.Ok? {
      SurvivesTrip(h, v, 0, out.value);
      again := RoundTrip(g, pairs, out.value);
    }
  }
}
