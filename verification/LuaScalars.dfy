/** What single values, keys, tags and limits come to, in each direction of the Lua/JSON bridge. */
module LuaScalars {
  import opened Wrappers
  import opened LuaJson

  // ----- integer keys -----

  predicate IsDigit(c: char) {
    '0' <= c <= '9'
  }

  predicate AllDigits(s: string) {
    forall i :: 0 <= i < |s| ==> IsDigit(s[i])
  }

  /** A run of digits read from left to right. */
  function ReadDigits(s: string, before: nat := 0): nat
    requires AllDigits(s)
  {
    if s == "" then before else ReadDigits(s[1..], 10 * before + (s[0] as int - '0' as int))
  }

  /** A decimal number, perhaps with a minus sign. */
  predicate IsNumeral(s: string) {
    if s != "" && s[0] == '-' then |s| > 1 && AllDigits(s[1..]) else s != "" && AllDigits(s)
  }

  function ReadNumeral(s: string): int
    requires IsNumeral(s)
  {
    if s[0] == '-' then -(ReadDigits(s[1..]) as int) else ReadDigits(s)
  }

  /** Written the one usual way: no leading zero, and no minus zero. */
  predicate Canonical(s: string)
    requires IsNumeral(s)
  {
    var digits := if s[0] == '-' then s[1..] else s;
    (|digits| > 1 ==> digits[0] != '0') && s != "-0"
  }

  lemma {:induction false} ReadOneMore(s: string, c: char, before: nat)
    requires AllDigits(s) && IsDigit(c)
    ensures AllDigits(s + [c]) && ReadDigits(s + [c], before) == 10 * ReadDigits(s, before) + (c as int - '0' as int)
    decreases |s|
  {
    var t := s + [c];
    if s == "" {
      assert t[1..] == "";
    } else {
      ReadOneMore(s[1..], c, 10 * before + (s[0] as int - '0' as int));
      assert t[1..] == s[1..] + [c];
    }
  }

  lemma DigitChar(d: nat)
    requires d < 10
    ensures IsDigit("0123456789"[d]) && "0123456789"[d] as int - '0' as int == d
    ensures "0123456789"[d] == '0' <==> d == 0
  {
  }

  lemma {:induction false} DigitsRead(n: nat)
    ensures Digits(n) != "" && AllDigits(Digits(n)) && ReadDigits(Digits(n)) == n
    ensures n > 0 ==> Digits(n)[0] != '0'
    ensures n == 0 ==> Digits(n) == "0"
    decreases n
  {
    DigitChar(n % 10);
    if n < 10 {
      assert Digits(n)[1..] == "";
    } else {
      DigitsRead(n / 10);
      ReadOneMore(Digits(n / 10), "0123456789"[n % 10], 0);
    }
  }

  /** An integer's text is a decimal numeral, written the usual way, that reads as the integer. */
  lemma IntTextReads(i: int)
    ensures IsNumeral(IntText(i)) && ReadNumeral(IntText(i)) == i && Canonical(IntText(i))
  {
    DigitsRead(if i < 0 then -i else i);
    if i < 0 {
      assert IntText(i)[1..] == Digits(-i);
    }
  }

  /** So no two integers have one text. */
  lemma IntTextsDiffer(i: int, j: int)
    requires IntText(i) == IntText(j)
    ensures i == j
  {
    IntTextReads(i);
    IntTextReads(j);
  }

  /** The name a key gives in JSON: its own text, the numeral of an integer, what a float displays as, or none. */
  lemma KeyTextMeans(k: Key)
    ensures match k
            case StrKey(s) => KeyText(k) == Some(s)
            case IntKey(i) =>
              KeyText(k).Some? && var t := KeyText(k).value; IsNumeral(t) && ReadNumeral(t) == i && Canonical(t)
            case NumKey(shown) => KeyText(k) == Some(shown)
            case BytesKey => KeyText(k).None? && KeyFault(k) == NotUtf8
            case OtherKey(_) => KeyText(k).None? && KeyFault(k) == BadKey
  {
    if k.IntKey? { IntTextReads(k.i); }
  }

  /** Two keys with one text, of which at most one is a float, are one key, or a string that spells an integer. */
  lemma SharedTexts(a: Key, b: Key)
    requires KeyText(a).Some? && KeyText(a) == KeyText(b) && !a.NumKey? && !b.NumKey?
    ensures a == b || (a.StrKey? && b.IntKey? && IsNumeral(a.s) && ReadNumeral(a.s) == b.i)
            || (b.StrKey? && a.IntKey? && IsNumeral(b.s) && ReadNumeral(b.s) == a.i)
  {
    KeyTextMeans(a);
    KeyTextMeans(b);
    if a.IntKey? && b.IntKey? { IntTextsDiffer(a.i, b.i); }
  }

  // ----- out of Lua -----

  /** A value that is not a table, and the JSON it becomes, or the fault it is refused with. */
  ghost predicate BecomesJson(v: Value, r: Result<Json, Fault>) {
    match v
    case Nil => r == Ok(JNull)
    case NullPtr => r == Ok(JNull)
    case Boolean(b) => r == Ok(JBool(b))
    case Integer(i) => r.Ok? && r.value.JNumber? && !r.value.n.Float? && IntegerOf(r.value.n) == i
    case Num(Finite(x)) => r == Ok(JNumber(Float(x)))
    case Num(NotFinite) => r == Err(NotANumber)
    case Str(s) => r == Ok(JString(s))
    case Bytes => r == Err(NotUtf8)
    case Unsupported => r == Err(BadType)
    case Table(_) => true
  }

  function IntegerOf(n: Number): int
    requires !n.Float?
  {
    match n case PosInt(u) => u case NegInt(i) => i
  }

  /** Every value that is not a table becomes what it should, or fails as it should, at any depth in bounds. */
  lemma ScalarsToJson(h: Heap, order: Order, v: Value, depth: nat)
    requires Ordered(h, order) && !v.Table? && depth <= 128
    ensures Convertible(h, v, depth) ==> BecomesJson(v, Ok(Converted(h, order, v, depth)))
    ensures !Convertible(h, v, depth) ==>
              forall f :: FailsWith(h, order, v, depth, f) <==> BecomesJson(v, Err(f))
  {
  }

  /** Past 128 levels anything fails, and for the depth alone. */
  lemma TooDeepIsAll(h: Heap, order: Order, v: Value, depth: nat)
    requires Ordered(h, order) && depth > 128
    ensures !Convertible(h, v, depth) && forall f :: FailsWith(h, order, v, depth, f) <==> f == TooDeep
  {
  }

  /** Whether a metatable marks a table as an array, or says so in a text that cannot be read. */
  ghost predicate MarksArray(meta: Meta) {
    meta.Meta? && meta.jsontype != Bytes && (meta.jsontype == Str("array") || meta.mluaArray)
  }

  ghost predicate Unreadable(meta: Meta) {
    meta.Meta? && meta.jsontype == Bytes
  }

  /**
    What a table becomes: an array if it has a sequence, whatever else it
    holds; else an empty array if its metatable says so; else an object.
  */
  lemma TablesToJson(h: Heap, order: Order, id: nat, depth: nat)
    requires Ordered(h, order) && id < |h| && Convertible(h, Table(id), depth)
    ensures var t, j := h[id], Converted(h, order, Table(id), depth);
            if t.arr != [] then
              && j.JArray? && |j.items| == |t.arr|
              && forall i :: 0 <= i < |t.arr| ==> j.items[i] == Converted(h, order, t.arr[i], depth + 1)
            else if MarksArray(t.meta) then j == JArray([])
            else j.JObject? && (j.fields == map[] <==> t.keyed == map[])
  {
    var t := h[id];
    if t.arr == [] && !MarksArray(t.meta) {
      ConvertedEncodes(h, order, Table(id), depth);
      FieldNames(h, t.keyed, depth, Converted(h, order, Table(id), depth).fields);
      if t.keyed != map[] {
        var k :| k in t.keyed;
        assert KeyText(k).value in Converted(h, order, Table(id), depth).fields;
      }
    }
  }

  /**
    What a table is refused with: for a sequence the fault of its first item
    that fails; for a tag that cannot be read, that; for keys, the fault of
    the first key without a text or value that fails, in the order visited.
  */
  lemma TableFaults(h: Heap, order: Order, id: nat, depth: nat, f: Fault)
    requires Ordered(h, order) && id < |h| && depth <= 128
    ensures var t, ks := h[id], order(id);
            FailsWith(h, order, Table(id), depth, f) <==>
            if t.arr != [] then
              exists i :: 0 <= i < |t.arr| && FailsWith(h, order, t.arr[i], depth + 1, f)
                          && forall n :: 0 <= n < i ==> Convertible(h, t.arr[n], depth + 1)
            else if Unreadable(t.meta) then f == NotUtf8
            else
              && !MarksArray(t.meta)
              && exists i :: 0 <= i < |ks|
                          && (forall n :: 0 <= n < i ==> KeyText(ks[n]).Some? && Convertible(h, t.keyed[ks[n]], depth + 1))
                          && match ks[i]
                             case BytesKey => f == NotUtf8
                             case OtherKey(_) => f == BadKey
                             case k => FailsWith(h, order, t.keyed[k], depth + 1, f)
  {
    forall i | 0 <= i < |order(id)| ensures KeyText(order(id)[i]).None? <==> order(id)[i].BytesKey? || order(id)[i].OtherKey? {
      KeyTextMeans(order(id)[i]);
    }
  }

  /** An empty table converts, unless the word in its metatable cannot be read. */
  lemma EmptyTables(h: Heap, id: nat, depth: nat)
    requires id < |h| && h[id].arr == [] && h[id].keyed == map[] && depth <= 128
    ensures Convertible(h, Table(id), depth) <==> !Unreadable(h[id].meta)
  {
  }

  // ----- into Lua -----

  /** The double nearest to an integer above `i64::MAX`, of two equally near the even one. */
  ghost predicate NearestDouble(u: int, d: int) {
    && d % 2048 == 0
    && -1024 <= d - u <= 1024
    && (d - u == 1024 || d - u == -1024 ==> d / 2048 % 2 == 0)
  }

  lemma RoundsToNearest(u: U64)
    requires u > 9223372036854775807
    ensures NearestDouble(u, RoundToF64(u))
    ensures forall d :: NearestDouble(u, d) ==> d == RoundToF64(u)
  {
    var q, r := u / 2048, u % 2048;
    assert u == 2048 * q + r;
    forall d | NearestDouble(u, d) ensures d == RoundToF64(u) {
      var p := d / 2048;
      assert d == 2048 * p;
      assert p == q || p == q + 1;
    }
  }

  /** The Lua value that pictures a JSON value with nothing in it. */
  ghost predicate BecomesLua(j: Json, v: Value) {
    match j
    case JNull => v == NullPtr
    case JBool(b) => v == Boolean(b)
    case JString(s) => v == Str(s)
    case JNumber(Float(f)) => v == Num(Finite(f))
    case JNumber(NegInt(i)) => v == Integer(i)
    case JNumber(PosInt(u)) =>
      if u <= 9223372036854775807 then v == Integer(u)
      else exists d :: NearestDouble(u, d) && v == Num(Finite(d as real))
    case _ => true
  }

  lemma ScalarsToLua(h: Heap, v: Value, j: Json)
    requires Represents(h, v, j)
    ensures BecomesLua(j, v)
  {
    if j.JNumber? && j.n.PosInt? && j.n.u > 9223372036854775807 {
      RoundsToNearest(j.n.u);
    }
  }

  /** An array is a table with its items in sequence and nothing else, marked exactly when it is empty; an object has its names as keys. */
  lemma TablesToLua(h: Heap, v: Value, j: Json)
    requires Represents(h, v, j) && (j.JArray? || j.JObject?)
    ensures v.Table? && v.id < |h|
    ensures j.JArray? ==>
              && h[v.id].keyed == map[] && |h[v.id].arr| == |j.items|
              && (if j.items == [] then h[v.id].meta == Meta(Str("array"), false) else h[v.id].meta == NoMeta)
              && forall i :: 0 <= i < |j.items| ==> Represents(h, h[v.id].arr[i], j.items[i])
    ensures j.JObject? ==>
              && h[v.id].arr == [] && h[v.id].meta == NoMeta
              && (forall k :: k in h[v.id].keyed <==> k.StrKey? && k.s in j.fields)
              && forall s :: s in j.fields ==> Represents(h, h[v.id].keyed[StrKey(s)], j.fields[s])
  {
  }
}
