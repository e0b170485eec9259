/** Canonical JSON: keys sorted at every depth, compact text (packages/watchtower-core/src/utils/canonical.ts). */
module Canonical {
  import opened Texts
  import opened Json
  import Sorting

  /** "__proto__" */
  const PROTO: Text := [0x5F, 0x5F, 0x70, 0x72, 0x6F, 0x74, 0x6F, 0x5F, 0x5F]

  // ---- JavaScript objects ----

  function Keys(fields: seq<Field>): (keys: seq<Text>)
    ensures |keys| == |fields|
    ensures forall i :: 0 <= i < |fields| ==> keys[i] == fields[i].key
  {
    seq(|fields|, i requires 0 <= i < |fields| => fields[i].key)
  }

  predicate Distinct(fields: seq<Field>) {
    forall i, j :: 0 <= i < j < |fields| ==> fields[i].key != fields[j].key
  }

  predicate HasKey(fields: seq<Field>, key: Text) {
    exists f <- fields :: f.key == key
  }

  /** Every object in `v` has distinct keys, as JavaScript objects do. */
  predicate Valid(v: Json) {
    match v
    case Arr(items) => forall x <- items :: Valid(x)
    case Obj(fields) => Distinct(fields) && forall f <- fields :: Valid(f.value)
    case _ => true
  }

  function IndexOf(key: Text): nat { ReadDigits(key, 0).0 }

  /** The keys that JavaScript enumerates first, in numeric order. */
  predicate IsIndex(key: Text) {
    key == Decimal(IndexOf(key)) && IndexOf(key) < 0xFFFF_FFFF
  }

  /** Property-enumeration order among keys set in code-unit order. */
  predicate Before(a: Text, b: Text) {
    if IsIndex(a) then IsIndex(b) ==> IndexOf(a) < IndexOf(b)
    else !IsIndex(b) && Compare(a, b) < 0
  }

  ghost predicate InOrder(fields: seq<Field>) {
    forall i, j :: 0 <= i < j < |fields| ==> Before(fields[i].key, fields[j].key)
  }

  function InsertIndexed(fields: seq<Field>, f: Field): seq<Field> {
    if fields != [] && IsIndex(fields[0].key) && IndexOf(fields[0].key) < IndexOf(f.key)
    then [fields[0]] + InsertIndexed(fields[1..], f)
    else [f] + fields
  }

  /** `object[key] = value` for a new key; assigning to `__proto__` adds no property. */
  function SetProperty(fields: seq<Field>, key: Text, value: Json): seq<Field> {
    if key == PROTO then fields
    else if IsIndex(key) then InsertIndexed(fields, Field(key, value))
    else fields + [Field(key, value)]
  }

  /** `object[key]` for a key the object has. */
  function ValueOf(fields: seq<Field>, key: Text): Json {
    if fields == [] then Null
    else if fields[0].key == key then fields[0].value
    else ValueOf(fields[1..], key)
  }

  // ---- The canonical form ----

  function SortedKeys(fields: seq<Field>): seq<Text> {
    Sorting.Sort(Compare, Keys(fields))
  }

  /** The object obtained by setting `keys` one after the other. */
  function Assemble(keys: seq<Text>, fields: seq<Field>): seq<Field> {
    if keys == [] then []
    else
      var last := |keys| - 1;
      SetProperty(Assemble(keys[..last], fields), keys[last], ValueOf(fields, keys[last]))
  }

  function Canon(v: Json): Json
    decreases v, 1
  {
    match v
    case Arr(items) => Arr(CanonItems(items))
    case Obj(fields) =>
      Obj(Assemble(SortedKeys(fields), CanonFields(fields)))
    case _ => v
  }

  function CanonItems(items: seq<Json>): (r: seq<Json>)
    ensures |r| == |items|
    ensures forall i :: 0 <= i < |items| ==> r[i] == Canon(items[i])
    decreases items, 0
  {
    if items == [] then [] else [Canon(items[0])] + CanonItems(items[1..])
  }

  function CanonFields(fields: seq<Field>): (r: seq<Field>)
    ensures |r| == |fields|
    ensures forall i :: 0 <= i < |fields| ==> r[i] == Field(fields[i].key, Canon(fields[i].value))
    decreases fields, 0
  {
    if fields == [] then [] else [Field(fields[0].key, Canon(fields[0].value))] + CanonFields(fields[1..])
  }

  function CanonicalJson(v: Json): Text { Print(Canon(v)) }

  // ---- The result is ordered, whatever the order it was built in ----

  lemma CompareIsPreorder()
    ensures Sorting.TotalPreorder(Compare)
  {
    forall x, y ensures Sorting.Opposite(Compare, x, y) {
      CompareSymmetric(x, y);
    }
    forall x, y, z ensures Sorting.Transitive(Compare, x, y, z) {
      if Compare(x, y) <= 0 && Compare(y, z) <= 0 {
        CompareTransitive(x, y, z);
      }
    }
  }

  lemma BeforeTransitive(a: Text, b: Text, c: Text)
    requires Before(a, b) && Before(b, c)
    ensures Before(a, c)
  {
    if !IsIndex(a) {
      CompareTransitive(a, b, c);
      if a == c {
        CompareSymmetric(a, b);
      }
    }
  }

  lemma BeforeTotal(a: Text, b: Text)
    requires a != b
    ensures Before(a, b) != Before(b, a)
  {
    CompareSymmetric(a, b);
  }

  lemma {:induction false} InsertIndexedMembers(fields: seq<Field>, f: Field)
    ensures forall g :: g in InsertIndexed(fields, f) <==> g == f || g in fields
  {
    if fields != [] {
      InsertIndexedMembers(fields[1..], f);
    }
  }

  lemma {:induction false} InsertIndexedInOrder(fields: seq<Field>, f: Field)
    requires InOrder(fields) && IsIndex(f.key) && !HasKey(fields, f.key)
    ensures InOrder(InsertIndexed(fields, f))
  {
    if fields == [] {
    } else if IsIndex(fields[0].key) && IndexOf(fields[0].key) < IndexOf(f.key) {
      var tail := InsertIndexed(fields[1..], f);
      InsertIndexedInOrder(fields[1..], f);
      InsertIndexedMembers(fields[1..], f);
      forall i | 0 <= i < |tail| ensures Before(fields[0].key, tail[i].key) {
        assert tail[i] in tail;
        if tail[i] != f {
          var j :| 0 <= j < |fields[1..]| && fields[1..][j] == tail[i];
          assert Before(fields[0].key, fields[j + 1].key);
        }
      }
    } else {
      assert fields[0] in fields;
      BeforeTotal(fields[0].key, f.key);
      forall i | 0 <= i < |fields| ensures Before(f.key, fields[i].key) {
        if i > 0 {
          BeforeTransitive(f.key, fields[0].key, fields[i].key);
        }
      }
    }
  }

  ghost predicate Increasing(keys: seq<Text>) {
    forall i, j :: 0 <= i < j < |keys| ==> Compare(keys[i], keys[j]) < 0
  }

  /** `out` holds, in enumeration order, the members of `fields` that have one of `keys`, save `__proto__`. */
  ghost predicate Collects(out: seq<Field>, keys: seq<Text>, fields: seq<Field>) {
    && InOrder(out)
    && forall f :: f in out <==> f in fields && f.key in keys && f.key != PROTO
  }

  lemma SetPropertyCollects(out: seq<Field>, keys: seq<Text>, key: Text, f: Field, fields: seq<Field>)
    requires Collects(out, keys, fields) && Increasing(keys + [key])
    requires Distinct(fields) && f in fields && f.key == key
    ensures Collects(SetProperty(out, key, f.value), keys + [key], fields)
  {
    forall k | k in keys ensures Compare(k, key) < 0 {
      var i :| 0 <= i < |keys| && keys[i] == k;
      assert (keys + [key])[i] == k && (keys + [key])[|keys|] == key;
    }
    assert f == Field(key, f.value);
    if key != PROTO {
      if IsIndex(key) {
        InsertIndexedInOrder(out, f);
        InsertIndexedMembers(out, f);
      } else {
        forall i | 0 <= i < |out| ensures Before(out[i].key, key) {
          assert out[i] in out;
        }
      }
    }
  }

  lemma {:induction false} AssembleCollects(keys: seq<Text>, fields: seq<Field>)
    requires Distinct(fields) && Increasing(keys)
    requires forall k <- keys :: HasKey(fields, k)
    ensures Collects(Assemble(keys, fields), keys, fields)
  {
    if keys != [] {
      var last := |keys| - 1;
      assert keys == keys[..last] + [keys[last]];
      AssembleCollects(keys[..last], fields);
      assert HasKey(fields, keys[last]);
      var f :| f in fields && f.key == keys[last];
      FindsValue(fields, f);
      SetPropertyCollects(Assemble(keys[..last], fields), keys[..last], keys[last], f, fields);
    }
  }

  lemma {:induction false} FindsValue(fields: seq<Field>, f: Field)
    requires Distinct(fields) && f in fields
    ensures ValueOf(fields, f.key) == f.value
  {
    if fields[0] != f {
      FindsValue(fields[1..], f);
    }
  }

  lemma {:induction false} InOrderUnique(xs: seq<Field>, ys: seq<Field>)
    requires InOrder(xs) && InOrder(ys)
    requires forall f :: f in xs <==> f in ys
    ensures xs == ys
  {
    if ys != [] {
      NonEmpty(ys, xs);
    }
    if xs != [] {
      NonEmpty(xs, ys);
      SameHead(xs, ys);
      forall f ensures f in xs[1..] <==> f in ys[1..] {
        assert f in xs <==> f == xs[0] || f in xs[1..];
        assert f in ys <==> f == ys[0] || f in ys[1..];
      }
      InOrderUnique(xs[1..], ys[1..]);
    }
  }

  lemma NonEmpty(xs: seq<Field>, ys: seq<Field>)
    requires xs != [] && forall f <- xs :: f in ys
    ensures ys != [] && xs[0] in ys
  {
    assert xs[0] in ys;
  }

  lemma SameHead(xs: seq<Field>, ys: seq<Field>)
    requires InOrder(xs) && InOrder(ys) && xs != [] && ys != []
    requires xs[0] in ys && ys[0] in xs
    ensures xs[0] == ys[0]
  {
    var i :| 0 <= i < |ys| && ys[i] == xs[0];
    var j :| 0 <= j < |xs| && xs[j] == ys[0];
    if i > 0 && j > 0 {
      BeforeTransitive(ys[0].key, ys[i].key, xs[j].key);
      CompareSymmetric(ys[0].key, ys[0].key);
      assert false;
    }
  }

  lemma SortedKeysIncrease(fields: seq<Field>)
    requires Distinct(fields)
    ensures Increasing(SortedKeys(fields))
    ensures forall k :: k in SortedKeys(fields) <==> HasKey(fields, k)
  {
    var keys := Keys(fields);
    Sorting.SortMultiset(Compare, keys);
    CompareIsPreorder();
    Sorting.SortSorted(Compare, keys);
    DistinctPermutation(keys, SortedKeys(fields));
    forall k ensures k in keys <==> HasKey(fields, k) {
      if k in keys {
        var i :| 0 <= i < |keys| && keys[i] == k;
        assert fields[i] in fields;
      }
      if HasKey(fields, k) {
        var f :| f in fields && f.key == k;
        var i :| 0 <= i < |fields| && fields[i] == f;
        assert keys[i] == k;
      }
    }
  }

  lemma {:induction false} DistinctPermutation(xs: seq<Text>, ys: seq<Text>)
    requires forall i, j :: 0 <= i < j < |xs| ==> xs[i] != xs[j]
    requires multiset(xs) == multiset(ys)
    ensures forall i, j :: 0 <= i < j < |ys| ==> ys[i] != ys[j]
  {
    forall i, j | 0 <= i < j < |ys| ensures ys[i] != ys[j] {
      if ys[i] == ys[j] {
        assert ys == ys[..i] + [ys[i]] + ys[i + 1..j] + [ys[j]] + ys[j + 1..];
        assert multiset(ys)[ys[i]] >= 2;
        AtMostOnce(xs, ys[i]);
      }
    }
  }

  lemma {:induction false} AtMostOnce(xs: seq<Text>, x: Text)
    requires forall i, j :: 0 <= i < j < |xs| ==> xs[i] != xs[j]
    ensures multiset(xs)[x] <= 1
  {
    if xs != [] {
      assert xs == [xs[0]] + xs[1..];
      AtMostOnce(xs[1..], x);
      if xs[0] == x {
        assert x !in xs[1..];
        assert x !in multiset(xs[1..]);
      }
    }
  }

  /** The canonical members are exactly the canonicalised ones other than `__proto__`, in order. */
  lemma CanonObject(fields: seq<Field>)
    requires Distinct(fields)
    ensures InOrder(Canon(Obj(fields)).fields)
    ensures forall f :: f in Canon(Obj(fields)).fields <==> f in CanonFields(fields) && f.key != PROTO
  {
    var values := CanonFields(fields);
    var keys := SortedKeys(fields);
    assert Keys(values) == Keys(fields);
    SortedKeysIncrease(values);
    AssembleCollects(keys, values);
    assert Collects(Canon(Obj(fields)).fields, keys, values);
  }

  /** The decimal text of an integer below 2^32 - 1. */
  ghost predicate ArrayIndex(key: Text) { exists n: nat :: n < 0xFFFF_FFFF && key == Decimal(n) }

  lemma IndexMeans(key: Text)
    ensures IsIndex(key) <==> ArrayIndex(key)
  {
    if n: nat :| n < 0xFFFF_FFFF && key == Decimal(n) {
      DecimalDigits(n);
    }
  }

  ghost predicate SmallerIndex(a: Text, b: Text) {
    exists m: nat, n: nat :: m < n < 0xFFFF_FFFF && a == Decimal(m) && b == Decimal(n)
  }

  /** Members of a canonical object: array indices first and by their number, then the others by the first code unit that differs. */
  lemma MembersAscend(fields: seq<Field>, i: nat, j: nat)
    requires Distinct(fields) && i < j < |Canon(Obj(fields)).fields|
    ensures
      var a, b := Canon(Obj(fields)).fields[i].key, Canon(Obj(fields)).fields[j].key;
      || SmallerIndex(a, b)
      || (ArrayIndex(a) && !ArrayIndex(b))
      || (!ArrayIndex(a) && !ArrayIndex(b) && Precedes(a, b))
  {
    var a, b := Canon(Obj(fields)).fields[i].key, Canon(Obj(fields)).fields[j].key;
    CanonObject(fields);
    assert Before(a, b);
    IndexMeans(a);
    IndexMeans(b);
    CompareMeans(a, b);
  }

  // ---- What the canonical text identifies ----

  /** Equal up to the order of object keys at every depth, members with an ignored key left aside. */
  ghost predicate SameUpToKeyOrder(a: Json, b: Json, ignored: set<Text>)
    decreases a, 1
  {
    match a
    case Arr(xs) =>
      && b.Arr? && |xs| == |b.items|
      && forall i :: 0 <= i < |xs| ==> SameUpToKeyOrder(xs[i], b.items[i], ignored)
    case Obj(fs) =>
      && b.Obj?
      && (forall f <- fs | f.key !in ignored :: Matched(f, b.fields, ignored))
      && (forall g <- b.fields | g.key !in ignored :: HasKey(fs, g.key))
    case _ => a == b
  }

  /** `gs` has a member with the key of `f` and the same value. */
  ghost predicate Matched(f: Field, gs: seq<Field>, ignored: set<Text>)
    decreases f, 2
  {
    exists g <- gs :: g.key == f.key && SameUpToKeyOrder(f.value, g.value, ignored)
  }

  lemma {:induction false} CanonSame(a: Json, b: Json)
    requires Valid(a) && Valid(b)
    ensures Canon(a) == Canon(b) <==> SameUpToKeyOrder(a, b, {PROTO})
    decreases a
  {
    if a.Arr? && b.Arr? && |a.items| == |b.items| {
      forall i | 0 <= i < |a.items|
        ensures Canon(a.items[i]) == Canon(b.items[i]) <==> SameUpToKeyOrder(a.items[i], b.items[i], {PROTO})
      {
        CanonSame(a.items[i], b.items[i]);
      }
      assert CanonItems(a.items) == CanonItems(b.items) <==>
        forall i :: 0 <= i < |a.items| ==> CanonItems(a.items)[i] == CanonItems(b.items)[i];
    } else if a.Obj? && b.Obj? {
      forall f, g | f in a.fields && g in b.fields ensures Agree(f, g) {
        CanonSame(f.value, g.value);
      }
      CanonSameObject(a.fields, b.fields);
    }
  }

  ghost predicate Agree(f: Field, g: Field) {
    Canon(f.value) == Canon(g.value) <==> SameUpToKeyOrder(f.value, g.value, {PROTO})
  }

  lemma CanonSameObject(fs: seq<Field>, gs: seq<Field>)
    requires Distinct(fs) && Distinct(gs)
    requires forall f, g | f in fs && g in gs :: Agree(f, g)
    ensures Canon(Obj(fs)) == Canon(Obj(gs)) <==> SameUpToKeyOrder(Obj(fs), Obj(gs), {PROTO})
  {
    CanonObject(fs);
    CanonObject(gs);
    if SameUpToKeyOrder(Obj(fs), Obj(gs), {PROTO}) {
      SameFields(fs, gs);
      InOrderUnique(Canon(Obj(fs)).fields, Canon(Obj(gs)).fields);
    } else if Canon(Obj(fs)) == Canon(Obj(gs)) {
      forall f | f in fs && f.key != PROTO ensures Matched(f, gs, {PROTO}) {
        var g := CanonFieldsFrom(gs, Field(f.key, Canon(f.value)));
        assert Agree(f, g);
      }
      forall g | g in gs && g.key != PROTO ensures HasKey(fs, g.key) {
        var f := CanonFieldsFrom(fs, Field(g.key, Canon(g.value)));
      }
    }
  }

  lemma CanonFieldsFrom(fields: seq<Field>, c: Field) returns (f: Field)
    requires c in CanonFields(fields)
    ensures f in fields && c == Field(f.key, Canon(f.value))
  {
    var i :| 0 <= i < |fields| && CanonFields(fields)[i] == c;
    f := fields[i];
  }

  lemma SameFields(fs: seq<Field>, gs: seq<Field>)
    requires Distinct(fs) && Distinct(gs) && SameUpToKeyOrder(Obj(fs), Obj(gs), {PROTO})
    requires forall f, g | f in fs && g in gs :: Agree(f, g)
    ensures forall c: Field :: c.key != PROTO ==> (c in CanonFields(fs) <==> c in CanonFields(gs))
  {
    forall c: Field | c.key != PROTO ensures c in CanonFields(fs) <==> c in CanonFields(gs) {
      if c in CanonFields(fs) {
        var f := CanonFieldsFrom(fs, c);
        assert Matched(f, gs, {PROTO});
        var g :| g in gs && g.key == f.key && SameUpToKeyOrder(f.value, g.value, {PROTO});
        assert Agree(f, g);
      }
      if c in CanonFields(gs) {
        var g := CanonFieldsFrom(gs, c);
        assert HasKey(fs, g.key);
        var f :| f in fs && f.key == g.key;
        assert Matched(f, gs, {PROTO});
        assert Agree(f, g);
      }
    }
  }

  /**
   Two values have the same canonical text exactly when they are equal up to object-key order at
   every depth, members named `__proto__` left aside.
   */
  lemma CanonicalJsonIdentifies(a: Json, b: Json)
    requires Valid(a) && Valid(b)
    ensures CanonicalJson(a) == CanonicalJson(b) <==> SameUpToKeyOrder(a, b, {PROTO})
  {
    CanonSame(a, b);
    if CanonicalJson(a) == CanonicalJson(b) {
      PrintInjective(Canon(a), Canon(b));
    }
  }

  /** No object in `v` has a member named `__proto__`. */
  predicate Plain(v: Json) {
    match v
    case Arr(items) => forall x <- items :: Plain(x)
    case Obj(fields) => forall f <- fields :: f.key != PROTO && Plain(f.value)
    case _ => true
  }

  lemma {:induction false} PlainSame(a: Json, b: Json)
    requires Plain(a) && Plain(b)
    ensures SameUpToKeyOrder(a, b, {PROTO}) <==> SameUpToKeyOrder(a, b, {})
    decreases a
  {
    if a.Arr? && b.Arr? && |a.items| == |b.items| {
      forall i | 0 <= i < |a.items|
        ensures SameUpToKeyOrder(a.items[i], b.items[i], {PROTO}) <==> SameUpToKeyOrder(a.items[i], b.items[i], {})
      {
        PlainSame(a.items[i], b.items[i]);
      }
    } else if a.Obj? && b.Obj? {
      forall f | f in a.fields ensures Matched(f, b.fields, {PROTO}) <==> Matched(f, b.fields, {}) {
        forall g | g in b.fields
          ensures SameUpToKeyOrder(f.value, g.value, {PROTO}) <==> SameUpToKeyOrder(f.value, g.value, {})
        {
          PlainSame(f.value, g.value);
        }
      }
    }
  }

  /** Without `__proto__` members the canonical text forgets key order and nothing else. */
  lemma CanonicalJsonForgetsOnlyKeyOrder(a: Json, b: Json)
    requires Valid(a) && Valid(b) && Plain(a) && Plain(b)
    ensures CanonicalJson(a) == CanonicalJson(b) <==> SameUpToKeyOrder(a, b, {})
  {
    CanonicalJsonIdentifies(a, b);
    PlainSame(a, b);
  }

  /** With one, it forgets more: `{"__proto__":1}` and `{}` have the same canonical text. */
  lemma ProtoMemberIsLost()
    ensures
      var a, b := Obj([Field(PROTO, Num(1))]), Obj([]);
      && Valid(a) && Valid(b)
      && CanonicalJson(a) == CanonicalJson(b)
      && !SameUpToKeyOrder(a, b, {})
  {
    var a, b := Obj([Field(PROTO, Num(1))]), Obj([]);
    assert SameUpToKeyOrder(a, b, {PROTO});
    CanonicalJsonIdentifies(a, b);
    assert Field(PROTO, Num(1)) in a.fields;
  }

  lemma {:induction false} CanonKeepsMeaning(v: Json)
    requires Valid(v)
    ensures Valid(Canon(v)) && SameUpToKeyOrder(v, Canon(v), {PROTO})
  {
    match v
    case Arr(items) =>
      forall i | 0 <= i < |items|
        ensures Valid(CanonItems(items)[i]) && SameUpToKeyOrder(items[i], CanonItems(items)[i], {PROTO})
      {
        CanonKeepsMeaning(items[i]);
      }
    case Obj(fields) =>
      var out := Canon(v).fields;
      CanonObject(fields);
      forall f | f in fields ensures Valid(Canon(f.value)) && (f.key != PROTO ==> Matched(f, out, {PROTO})) {
        CanonKeepsMeaning(f.value);
      }
      forall i, j | 0 <= i < j < |out| ensures out[i].key != out[j].key {
        assert Before(out[i].key, out[j].key);
        CompareSymmetric(out[i].key, out[i].key);
      }
      forall c | c in out ensures Valid(c.value) && HasKey(fields, c.key) {
        var f := CanonFieldsFrom(fields, c);
      }
    case _ =>
  }

  /** Canonical text reads back to a value with the same canonical text: hashing it again changes nothing. */
  lemma CanonicalJsonReproduces(v: Json)
    requires Valid(v)
    ensures Parse(CanonicalJson(v)) == Got(Canon(v), [])
    ensures CanonicalJson(Canon(v)) == CanonicalJson(v)
  {
    ParsePrint(Canon(v));
    CanonKeepsMeaning(v);
    CanonSame(v, Canon(v));
  }

  // ---- The procedure of the source ----

  method SortKeys(v: Json) returns (r: Json)
    requires Valid(v)
    ensures r == Canon(v)
    decreases v
  {
    match v
    case Arr(items) =>
      var out: seq<Json> := [];
      for i := 0 to |items|
        invariant |out| == i && forall j :: 0 <= j < i ==> out[j] == Canon(items[j])
      {
        var x := SortKeys(items[i]);
        out := out + [x];
      }
      assert out == CanonItems(items);
      r := Arr(out);
    case Obj(fields) =>
      ghost var values := CanonFields(fields);
      SortedKeysIncrease(fields);
      var keys := SortedKeys(fields);
      var sorted: seq<Field> := [];
      for k := 0 to |keys|
        invariant sorted == Assemble(keys[..k], values)
      {
        assert keys[k] in keys;
        var i := Position(fields, keys[k]);
        var x := SortKeys(fields[i].value);
        FindsValue(values, values[i]);
        assert keys[..k + 1][..k] == keys[..k];
        sorted := SetProperty(sorted, keys[k], x);
      }
      assert keys[..|keys|] == keys;
      r := Obj(sorted);
    case _ => r := v;
  }

  function Position(fields: seq<Field>, key: Text): (i: nat)
    requires HasKey(fields, key)
    ensures i < |fields| && fields[i].key == key
  {
    if fields[0].key == key then 0 else 1 + Position(fields[1..], key)
  }
}
