/** The canonical form of audit details: object keys sorted at every depth. */
module CanonicalJson {
  datatype Field = Field(key: string, value: Json)

  datatype Json = Null | Bool(b: bool) | Num(n: real) | Str(s: string) | Arr(items: seq<Json>) | Obj(fields: seq<Field>)

  /** The key order: `localeCompare(a, b) < 0`. Different keys may tie, as canonically equivalent ones do. */
  type KeyOrder = (string, string) -> bool

  ghost predicate StrictWeak(less: KeyOrder) {
    && (forall x :: !less(x, x))
    && (forall x, y, z :: less(x, y) && less(y, z) ==> less(x, z))
    && (forall x, y, z :: less(x, z) ==> less(x, y) || less(y, z))
  }

  function Insert(less: KeyOrder, fs: seq<Field>, f: Field): (r: seq<Field>)
    ensures multiset(r) == multiset(fs) + multiset{f}
    ensures forall x :: x in r <==> x in fs || x == f
  {
    if fs == [] then [f]
    else if less(f.key, fs[|fs| - 1].key) then
      var r := Insert(less, fs[..|fs| - 1], f) + [fs[|fs| - 1]];
      assert fs == fs[..|fs| - 1] + [fs[|fs| - 1]];
      r
    else fs + [f]
  }

  /** A stable sort by key. */
  function SortFields(less: KeyOrder, fs: seq<Field>): (r: seq<Field>)
    ensures multiset(r) == multiset(fs)
    ensures forall f :: f in r <==> f in fs
  {
    if fs == [] then []
    else
      assert fs == fs[..|fs| - 1] + [fs[|fs| - 1]];
      Insert(less, SortFields(less, fs[..|fs| - 1]), fs[|fs| - 1])
  }

  function SortJson(less: KeyOrder, v: Json): Json
    decreases v
  {
    match v
    case Arr(items) => Arr(seq(|items|, i requires 0 <= i < |items| => SortJson(less, items[i])))
    case Obj(fields) =>
      var s := SortFields(less, fields);
      Obj(seq(|s|, i requires 0 <= i < |s| => assert s[i] in fields; Field(s[i].key, SortJson(less, s[i].value))))
    case _ => v
  }

  ghost predicate DistinctKeys(fs: seq<Field>) {
    forall i, j :: 0 <= i < j < |fs| ==> fs[i].key != fs[j].key
  }

  /** What an object can be: no key twice, at any depth. */
  ghost predicate WellFormed(v: Json)
    decreases v
  {
    match v
    case Arr(items) => forall i :: 0 <= i < |items| ==> WellFormed(items[i])
    case Obj(fields) => DistinctKeys(fields) && forall i :: 0 <= i < |fields| ==> WellFormed(fields[i].value)
    case _ => true
  }

  /** Some field of `fs` carries `key`. */
  predicate HasKey(fs: seq<Field>, key: string) {
    exists f :: f in fs && f.key == key
  }

  /** Equal up to the order of object keys at every depth. */
  ghost predicate SameDetails(a: Json, b: Json)
    decreases a
  {
    match (a, b)
    case (Arr(xs), Arr(ys)) => |xs| == |ys| && forall i :: 0 <= i < |xs| ==> SameDetails(xs[i], ys[i])
    case (Obj(xs), Obj(ys)) =>
      && (forall k :: HasKey(xs, k) <==> HasKey(ys, k))
      && (forall i, j :: 0 <= i < |xs| && 0 <= j < |ys| && xs[i].key == ys[j].key ==>
            SameDetails(xs[i].value, ys[j].value))
    case _ => a == b
  }

  /** No two fields tie. */
  ghost predicate Untied(less: KeyOrder, fs: seq<Field>) {
    forall i, j :: 0 <= i < j < |fs| ==> less(fs[i].key, fs[j].key) || less(fs[j].key, fs[i].key)
  }

  /** No two keys of one object tie, at any depth. */
  ghost predicate UntiedJson(less: KeyOrder, v: Json)
    decreases v
  {
    match v
    case Arr(items) => forall i :: 0 <= i < |items| ==> UntiedJson(less, items[i])
    case Obj(fields) => Untied(less, fields) && forall i :: 0 <= i < |fields| ==> UntiedJson(less, fields[i].value)
    case _ => true
  }

  // ----- Sorting by key -----

  ghost predicate Ascending(less: KeyOrder, fs: seq<Field>) {
    forall i, j :: 0 <= i < j < |fs| ==> less(fs[i].key, fs[j].key)
  }

  lemma {:induction false} InsertAscends(less: KeyOrder, fs: seq<Field>, f: Field)
    requires StrictWeak(less) && Ascending(less, fs)
    requires forall x :: x in fs ==> less(x.key, f.key) || less(f.key, x.key)
    ensures Ascending(less, Insert(less, fs, f))
  {
    if fs != [] && less(f.key, fs[|fs| - 1].key) {
      var init := fs[..|fs| - 1];
      InsertAscends(less, init, f);
      var r := Insert(less, init, f);
      forall i | 0 <= i < |r| ensures less(r[i].key, fs[|fs| - 1].key) {
        assert r[i] in init || r[i] == f;
      }
    } else if fs != [] {
      assert fs[|fs| - 1] in fs;
    }
  }

  lemma {:induction false} SortFieldsAscends(less: KeyOrder, fs: seq<Field>)
    requires StrictWeak(less) && Untied(less, fs)
    ensures Ascending(less, SortFields(less, fs))
  {
    if fs != [] {
      SortFieldsAscends(less, fs[..|fs| - 1]);
      forall x | x in SortFields(less, fs[..|fs| - 1])
        ensures less(x.key, fs[|fs| - 1].key) || less(fs[|fs| - 1].key, x.key)
      {
        var k := PositionOf(fs[..|fs| - 1], x);
        assert fs[k] == x;
      }
      InsertAscends(less, SortFields(less, fs[..|fs| - 1]), fs[|fs| - 1]);
    }
  }

  /** Strictly ascending keys over the same key set come in the same order. */
  lemma {:induction false} AscendingKeysAgree(less: KeyOrder, xs: seq<Field>, ys: seq<Field>)
    requires StrictWeak(less) && Ascending(less, xs) && Ascending(less, ys)
    requires forall k :: HasKey(xs, k) <==> HasKey(ys, k)
    ensures |xs| == |ys|
    ensures forall i :: 0 <= i < |xs| ==> xs[i].key == ys[i].key
  {
    if xs == [] || ys == [] {
      assert xs != [] ==> HasKey(xs, xs[0].key);
      assert ys != [] ==> HasKey(ys, ys[0].key);
    } else {
      var x, y := xs[|xs| - 1].key, ys[|ys| - 1].key;
      var xs', ys' := xs[..|xs| - 1], ys[..|ys| - 1];
      assert HasKey(xs, x) && HasKey(ys, y);
      assert x == y;
      forall k ensures HasKey(xs', k) <==> HasKey(ys', k) {
        assert HasKey(xs, k) <==> HasKey(xs', k) || k == x;
        assert HasKey(ys, k) <==> HasKey(ys', k) || k == y;
        assert !HasKey(xs', x) && !HasKey(ys', y);
      }
      AscendingKeysAgree(less, xs', ys');
    }
  }

  // ----- The canonical form -----

  lemma SortedKeySet(less: KeyOrder, fs: seq<Field>)
    ensures forall k :: HasKey(SortFields(less, fs), k) <==> HasKey(fs, k)
  {
  }

  /** Details that differ only in key order have the same canonical form. */
  lemma {:induction false} SameDetailsSortAlike(less: KeyOrder, a: Json, b: Json)
    requires StrictWeak(less) && WellFormed(a) && WellFormed(b) && UntiedJson(less, a) && SameDetails(a, b)
    ensures SortJson(less, a) == SortJson(less, b)
    decreases a
  {
    match (a, b)
    case (Arr(xs), Arr(ys)) =>
      forall i | 0 <= i < |xs| ensures SortJson(less, xs[i]) == SortJson(less, ys[i]) {
        SameDetailsSortAlike(less, xs[i], ys[i]);
      }
    case (Obj(xs), Obj(ys)) =>
      var sx, sy := SortFields(less, xs), SortFields(less, ys);
      var fa, fb := SortJson(less, a).fields, SortJson(less, b).fields;
      SameKeysInOrder(less, xs, ys);
      assert |fa| == |sx| == |sy| == |fb|;
      forall i | 0 <= i < |fa| ensures fa[i] == fb[i] {
        var j := PositionOf(xs, sx[i]);
        var k := PositionOf(ys, sy[i]);
        assert xs[j].key == ys[k].key;
        SameDetailsSortAlike(less, xs[j].value, ys[k].value);
      }
      assert fa == fb;
    case _ =>
  }

  lemma SameKeysUntied(less: KeyOrder, xs: seq<Field>, ys: seq<Field>)
    requires Untied(less, xs) && DistinctKeys(ys) && forall k :: HasKey(ys, k) ==> HasKey(xs, k)
    ensures Untied(less, ys)
  {
    forall i, j | 0 <= i < j < |ys| ensures less(ys[i].key, ys[j].key) || less(ys[j].key, ys[i].key) {
      assert ys[i] in ys && ys[j] in ys;
      assert HasKey(xs, ys[i].key) && HasKey(xs, ys[j].key);
      var x, y :| x in xs && x.key == ys[i].key && y in xs && y.key == ys[j].key;
      var p := PositionOf(xs, x);
      var q := PositionOf(xs, y);
      assert p < q || q < p;
    }
  }

  lemma SameKeysInOrder(less: KeyOrder, xs: seq<Field>, ys: seq<Field>)
    requires StrictWeak(less) && Untied(less, xs) && DistinctKeys(ys)
    requires forall k :: HasKey(xs, k) <==> HasKey(ys, k)
    ensures var sx, sy := SortFields(less, xs), SortFields(less, ys);
            |sx| == |sy| && forall i :: 0 <= i < |sx| ==> sx[i].key == sy[i].key
  {
    SortFieldsAscends(less, xs);
    SameKeysUntied(less, xs, ys);
    SortFieldsAscends(less, ys);
    SortedKeySet(less, xs);
    SortedKeySet(less, ys);
    AscendingKeysAgree(less, SortFields(less, xs), SortFields(less, ys));
  }

  /** Different details never share a canonical form. */
  lemma {:induction false} SortAlikeIsSameDetails(less: KeyOrder, a: Json, b: Json)
    requires WellFormed(a) && WellFormed(b) && SortJson(less, a) == SortJson(less, b)
    ensures SameDetails(a, b)
    decreases a
  {
    match (a, b)
    case (Arr(xs), Arr(ys)) =>
      forall i | 0 <= i < |xs| ensures |xs| == |ys| && SameDetails(xs[i], ys[i]) {
        assert SortJson(less, a).items[i] == SortJson(less, b).items[i];
        SortAlikeIsSameDetails(less, xs[i], ys[i]);
      }
      assert |SortJson(less, a).items| == |SortJson(less, b).items|;
    case (Obj(xs), Obj(ys)) =>
      var sx, sy := SortFields(less, xs), SortFields(less, ys);
      var fx, fy := SortJson(less, a).fields, SortJson(less, b).fields;
      assert |sx| == |fx| == |fy| == |sy|;
      forall i | 0 <= i < |sx|
        ensures sx[i].key == sy[i].key && SortJson(less, sx[i].value) == SortJson(less, sy[i].value)
      {
        assert fx[i] == fy[i];
      }
      SameFieldsByPosition(less, xs, ys, sx, sy);
      forall i, j | 0 <= i < |xs| && 0 <= j < |ys| && xs[i].key == ys[j].key
        ensures SameDetails(xs[i].value, ys[j].value)
      {
        var k := PositionOf(sx, xs[i]);
        assert sy[k] in ys && ys[j] in ys;
        SortAlikeIsSameDetails(less, xs[i].value, ys[j].value);
      }
    case _ =>
  }

  lemma PositionOf(fs: seq<Field>, f: Field) returns (k: nat)
    requires f in fs
    ensures k < |fs| && fs[k] == f
  {
    k :| 0 <= k < |fs| && fs[k] == f;
  }

  lemma SameFieldsByPosition(less: KeyOrder, xs: seq<Field>, ys: seq<Field>, sx: seq<Field>, sy: seq<Field>)
    requires sx == SortFields(less, xs) && sy == SortFields(less, ys) && |sx| == |sy|
    requires forall i :: 0 <= i < |sx| ==> sx[i].key == sy[i].key
    ensures forall k :: HasKey(xs, k) <==> HasKey(ys, k)
  {
    SortedKeySet(less, xs);
    SortedKeySet(less, ys);
    forall k ensures HasKey(sx, k) <==> HasKey(sy, k) {
      if HasKey(sx, k) {
        var f :| f in sx && f.key == k;
        var i := PositionOf(sx, f);
        assert sy[i] in sy;
      }
      if HasKey(sy, k) {
        var f :| f in sy && f.key == k;
        var i := PositionOf(sy, f);
        assert sx[i] in sx;
      }
    }
  }

  /** Where no keys tie, the canonical form decides equality up to key order. */
  lemma CanonicalExactly(less: KeyOrder, a: Json, b: Json)
    requires StrictWeak(less) && WellFormed(a) && WellFormed(b) && UntiedJson(less, a)
    ensures SortJson(less, a) == SortJson(less, b) <==> SameDetails(a, b)
  {
    if SameDetails(a, b) {
      SameDetailsSortAlike(less, a, b);
    } else if SortJson(less, a) == SortJson(less, b) {
      SortAlikeIsSameDetails(less, a, b);
    }
  }

  lemma {:induction false} InsertKeepsDistinct(less: KeyOrder, fs: seq<Field>, f: Field)
    requires DistinctKeys(fs) && !HasKey(fs, f.key)
    ensures DistinctKeys(Insert(less, fs, f))
  {
    if fs != [] && less(f.key, fs[|fs| - 1].key) {
      var init, last := fs[..|fs| - 1], fs[|fs| - 1];
      InsertKeepsDistinct(less, init, f);
      var r := Insert(less, init, f);
      assert last in fs;
      forall i | 0 <= i < |r| ensures r[i].key != last.key {
        assert r[i] in init || r[i] == f;
        if r[i] in init {
          var p := PositionOf(init, r[i]);
          assert fs[p].key != last.key;
        }
      }
    } else {
      forall i | 0 <= i < |fs| ensures fs[i].key != f.key {
        assert fs[i] in fs;
      }
    }
  }

  lemma LastIsNew(fs: seq<Field>)
    requires fs != [] && DistinctKeys(fs)
    ensures !HasKey(fs[..|fs| - 1], fs[|fs| - 1].key)
  {
    forall f | f in fs[..|fs| - 1] ensures f.key != fs[|fs| - 1].key {
      var p := PositionOf(fs[..|fs| - 1], f);
      assert fs[p] == f;
    }
  }

  lemma {:induction false} SortKeepsDistinct(less: KeyOrder, fs: seq<Field>)
    requires DistinctKeys(fs)
    ensures DistinctKeys(SortFields(less, fs))
  {
    if fs != [] {
      var init, last := fs[..|fs| - 1], fs[|fs| - 1];
      SortKeepsDistinct(less, init);
      SortedKeySet(less, init);
      LastIsNew(fs);
      InsertKeepsDistinct(less, SortFields(less, init), last);
    }
  }

  /** Sorting keeps every value under its key. */
  lemma {:induction false} SortKeepsDetails(less: KeyOrder, v: Json)
    requires WellFormed(v)
    ensures WellFormed(SortJson(less, v)) && SameDetails(v, SortJson(less, v))
    decreases v
  {
    match v
    case Arr(items) =>
      forall i | 0 <= i < |items|
        ensures WellFormed(SortJson(less, items[i])) && SameDetails(items[i], SortJson(less, items[i]))
      {
        SortKeepsDetails(less, items[i]);
      }
    case Obj(fields) =>
      var s := SortFields(less, fields);
      var r := SortJson(less, v).fields;
      SortKeepsDistinct(less, fields);
      SortedKeySet(less, fields);
      forall i | 0 <= i < |s| ensures WellFormed(r[i].value) && s[i] in fields && r[i].key == s[i].key {
        var m := PositionOf(fields, s[i]);
        SortKeepsDetails(less, fields[m].value);
      }
      forall k ensures HasKey(fields, k) <==> HasKey(r, k) {
        if HasKey(s, k) {
          var f :| f in s && f.key == k;
          var i := PositionOf(s, f);
          assert r[i] in r;
        }
        if HasKey(r, k) {
          var f :| f in r && f.key == k;
          var i := PositionOf(r, f);
          assert s[i] in s;
        }
      }
      forall i, j | 0 <= i < |fields| && 0 <= j < |r| && fields[i].key == r[j].key
        ensures SameDetails(fields[i].value, r[j].value)
      {
        var m := PositionOf(fields, s[j]);
        assert m == i;
        SortKeepsDetails(less, fields[i].value);
      }
    case _ =>
  }

  // ----- Sorting twice -----

  /** No field should come before an earlier one. */
  ghost predicate InOrder(less: KeyOrder, fs: seq<Field>) {
    forall i, j :: 0 <= i < j < |fs| ==> !less(fs[j].key, fs[i].key)
  }

  lemma NotBefore(less: KeyOrder, x: string, y: string, z: string)
    requires StrictWeak(less) && !less(x, y) && !less(y, z)
    ensures !less(x, z)
  {
  }

  lemma {:induction false} InsertKeepsOrder(less: KeyOrder, fs: seq<Field>, f: Field)
    requires StrictWeak(less) && InOrder(less, fs)
    ensures InOrder(less, Insert(less, fs, f))
  {
    if fs != [] && less(f.key, fs[|fs| - 1].key) {
      var init, last := fs[..|fs| - 1], fs[|fs| - 1];
      InsertKeepsOrder(less, init, f);
      var r := Insert(less, init, f);
      forall i | 0 <= i < |r| ensures !less(last.key, r[i].key) {
        assert r[i] in init || r[i] == f;
        if r[i] in init {
          var p := PositionOf(init, r[i]);
          assert fs[p] == r[i];
        }
      }
    } else if fs != [] {
      var last := fs[|fs| - 1].key;
      forall i | 0 <= i < |fs| ensures !less(f.key, fs[i].key) {
        NotBefore(less, f.key, last, fs[i].key);
      }
    }
  }

  lemma {:induction false} SortIsInOrder(less: KeyOrder, fs: seq<Field>)
    requires StrictWeak(less)
    ensures InOrder(less, SortFields(less, fs))
  {
    if fs != [] {
      SortIsInOrder(less, fs[..|fs| - 1]);
      InsertKeepsOrder(less, SortFields(less, fs[..|fs| - 1]), fs[|fs| - 1]);
    }
  }

  lemma OrderedInit(less: KeyOrder, fs: seq<Field>)
    requires InOrder(less, fs) && fs != []
    ensures InOrder(less, fs[..|fs| - 1]) && fs == fs[..|fs| - 1] + [fs[|fs| - 1]]
    ensures |fs| > 1 ==> !less(fs[|fs| - 1].key, fs[|fs| - 2].key)
  {
  }

  lemma InsertAtEnd(less: KeyOrder, fs: seq<Field>, f: Field)
    requires fs == [] || !less(f.key, fs[|fs| - 1].key)
    ensures Insert(less, fs, f) == fs + [f]
  {
    InsertUnfolds(less, fs, f);
  }

  lemma {:induction false} OrderedStays(less: KeyOrder, fs: seq<Field>)
    requires InOrder(less, fs)
    ensures SortFields(less, fs) == fs
  {
    if fs != [] {
      OrderedInit(less, fs);
      OrderedStays(less, fs[..|fs| - 1]);
      InsertAtEnd(less, fs[..|fs| - 1], fs[|fs| - 1]);
    }
  }

  /** Sorting is idempotent, ties or not. */
  lemma {:induction false} SortIsIdempotent(less: KeyOrder, v: Json)
    requires StrictWeak(less)
    ensures SortJson(less, SortJson(less, v)) == SortJson(less, v)
    decreases v
  {
    match v
    case Arr(items) =>
      forall i | 0 <= i < |items| ensures SortJson(less, SortJson(less, items[i])) == SortJson(less, items[i]) {
        SortIsIdempotent(less, items[i]);
      }
    case Obj(fields) =>
      var s, r := SortFields(less, fields), SortJson(less, v).fields;
      SortIsInOrder(less, fields);
      OrderedStays(less, r);
      var twice := SortJson(less, Obj(r)).fields;
      forall i | 0 <= i < |r| ensures twice[i] == r[i] {
        assert s[i] in fields;
        SortIsIdempotent(less, s[i].value);
      }
      assert twice == r;
    case _ =>
  }

  // ----- Ties -----

  lemma {:induction false} SameAsItself(v: Json)
    requires WellFormed(v)
    ensures SameDetails(v, v)
    decreases v
  {
    match v
    case Arr(items) =>
      forall i | 0 <= i < |items| ensures SameDetails(items[i], items[i]) {
        SameAsItself(items[i]);
      }
    case Obj(fields) =>
      forall i, j | 0 <= i < |fields| && 0 <= j < |fields| && fields[i].key == fields[j].key
        ensures SameDetails(fields[i].value, fields[j].value)
      {
        assert i == j;
        SameAsItself(fields[i].value);
      }
    case _ =>
  }

  /** `x` stands before `y`. */
  ghost predicate Before(fs: seq<Field>, x: Field, y: Field) {
    exists p, q :: 0 <= p < q < |fs| && fs[p] == x && fs[q] == y
  }

  lemma {:induction false} InsertKeepsBefore(less: KeyOrder, fs: seq<Field>, f: Field, x: Field, y: Field)
    requires Before(fs, x, y)
    ensures Before(Insert(less, fs, f), x, y)
  {
    var p, q :| 0 <= p < q < |fs| && fs[p] == x && fs[q] == y;
    if less(f.key, fs[|fs| - 1].key) {
      var init, last := fs[..|fs| - 1], fs[|fs| - 1];
      var r := Insert(less, init, f);
      if q < |init| {
        assert init[p] == x && init[q] == y;
        InsertKeepsBefore(less, init, f, x, y);
        var p', q' :| 0 <= p' < q' < |r| && r[p'] == x && r[q'] == y;
        assert (r + [last])[p'] == x && (r + [last])[q'] == y;
      } else {
        assert init[p] in init;
        var p' := PositionOf(r, x);
        assert (r + [last])[p'] == x && (r + [last])[|r|] == y;
      }
    } else {
      assert (fs + [f])[p] == x && (fs + [f])[q] == y;
    }
  }

  /** A field is inserted behind those it ties with. */
  lemma {:induction false} InsertBehindTie(less: KeyOrder, fs: seq<Field>, f: Field, x: Field)
    requires x in fs && !less(f.key, x.key)
    ensures Before(Insert(less, fs, f), x, f)
  {
    if less(f.key, fs[|fs| - 1].key) {
      var init, last := fs[..|fs| - 1], fs[|fs| - 1];
      var k := PositionOf(fs, x);
      assert init[k] == x;
      InsertBehindTie(less, init, f, x);
      var r := Insert(less, init, f);
      var p, q :| 0 <= p < q < |r| && r[p] == x && r[q] == f;
      assert (r + [last])[p] == x && (r + [last])[q] == f;
    } else {
      var k := PositionOf(fs, x);
      assert (fs + [f])[k] == x && (fs + [f])[|fs|] == f;
    }
  }

  /** The sort is stable. */
  lemma {:induction false} SortIsStable(less: KeyOrder, fs: seq<Field>, i: nat, j: nat)
    requires i < j < |fs| && !less(fs[j].key, fs[i].key)
    ensures Before(SortFields(less, fs), fs[i], fs[j])
    decreases |fs|
  {
    var init, last := fs[..|fs| - 1], fs[|fs| - 1];
    if j < |init| {
      assert init[i] == fs[i] && init[j] == fs[j];
      SortIsStable(less, init, i, j);
      InsertKeepsBefore(less, SortFields(less, init), last, fs[i], fs[j]);
    } else {
      assert init[i] in init;
      InsertBehindTie(less, SortFields(less, init), last, fs[i]);
    }
  }

  lemma SortedField(less: KeyOrder, fs: seq<Field>, p: nat)
    requires p < |SortFields(less, fs)|
    ensures var r := SortJson(less, Obj(fs)).fields;
            && |r| == |SortFields(less, fs)|
            && r[p] == Field(SortFields(less, fs)[p].key, SortJson(less, SortFields(less, fs)[p].value))
  {
  }

  /** Two sequences that have two keys in different orders differ somewhere. */
  lemma KeysCross(xs: seq<Field>, ys: seq<Field>, a: Field, b: Field) returns (k: nat)
    requires DistinctKeys(xs) && |xs| == |ys| && Before(xs, a, b) && Before(ys, b, a)
    ensures k < |xs| && xs[k].key != ys[k].key
  {
    var p, q :| 0 <= p < q < |xs| && xs[p] == a && xs[q] == b;
    var p', q' :| 0 <= p' < q' < |ys| && ys[p'] == b && ys[q'] == a;
    k := if xs[p'].key != b.key then p' else q';
  }

  lemma SwappedTieShows(less: KeyOrder, fs: seq<Field>, i: nat, j: nat)
    requires DistinctKeys(fs) && i < j < |fs| && !less(fs[i].key, fs[j].key) && !less(fs[j].key, fs[i].key)
    ensures SortJson(less, Obj(fs[i := fs[j]][j := fs[i]])) != SortJson(less, Obj(fs))
  {
    var gs := fs[i := fs[j]][j := fs[i]];
    SortKeepsDistinct(less, fs);
    SortIsStable(less, fs, i, j);
    SortIsStable(less, gs, i, j);
    SortLength(less, fs);
    SortLength(less, gs);
    var k := KeysCross(SortFields(less, fs), SortFields(less, gs), fs[i], fs[j]);
    SortedField(less, fs, k);
    SortedField(less, gs, k);
  }

  lemma SortLength(less: KeyOrder, fs: seq<Field>)
    ensures |SortFields(less, fs)| == |fs|
  {
    assert |multiset(SortFields(less, fs))| == |multiset(fs)|;
  }

  lemma SwapIsSame(fs: seq<Field>, i: nat, j: nat)
    requires WellFormed(Obj(fs)) && i < j < |fs|
    ensures var b := Obj(fs[i := fs[j]][j := fs[i]]); WellFormed(b) && SameDetails(Obj(fs), b)
  {
    var gs := fs[i := fs[j]][j := fs[i]];
    forall k ensures HasKey(fs, k) <==> HasKey(gs, k) {
      forall f ensures f in fs <==> f in gs {
        if f in fs {
          var p := PositionOf(fs, f);
          assert gs[if p == i then j else if p == j then i else p] == f;
        }
      }
    }
    forall p, q | 0 <= p < |fs| && 0 <= q < |gs| && fs[p].key == gs[q].key
      ensures SameDetails(fs[p].value, gs[q].value)
    {
      assert fs[p] == gs[q];
      SameAsItself(fs[p].value);
    }
  }

  predicate SameKeys(fs: seq<Field>, gs: seq<Field>) {
    |fs| == |gs| && forall i :: 0 <= i < |fs| ==> fs[i].key == gs[i].key
  }

  lemma AppendSame(r: seq<Field>, t: seq<Field>, x: Field, y: Field)
    requires SameKeys(r, t) && x.key == y.key
    ensures SameKeys(r + [x], t + [y])
  {
  }

  lemma InsertUnfolds(less: KeyOrder, fs: seq<Field>, f: Field)
    ensures Insert(less, fs, f)
            == if fs != [] && less(f.key, fs[|fs| - 1].key) then Insert(less, fs[..|fs| - 1], f) + [fs[|fs| - 1]]
               else fs + [f]
  {
    assert [] + [f] == [f];
  }

  /** Insertion looks at keys only. */
  lemma {:induction false} InsertByKeys(less: KeyOrder, fs: seq<Field>, gs: seq<Field>, f: Field, g: Field)
    requires SameKeys(fs, gs) && f.key == g.key
    ensures SameKeys(Insert(less, fs, f), Insert(less, gs, g))
  {
    InsertUnfolds(less, fs, f);
    InsertUnfolds(less, gs, g);
    if fs != [] && less(f.key, fs[|fs| - 1].key) {
      var init, other := fs[..|fs| - 1], gs[..|gs| - 1];
      InsertByKeys(less, init, other, f, g);
      AppendSame(Insert(less, init, f), Insert(less, other, g), fs[|fs| - 1], gs[|gs| - 1]);
    } else {
      AppendSame(fs, gs, f, g);
    }
  }

  lemma {:induction false} SortByKeys(less: KeyOrder, fs: seq<Field>, gs: seq<Field>)
    requires SameKeys(fs, gs)
    ensures SameKeys(SortFields(less, fs), SortFields(less, gs))
  {
    if fs != [] {
      var f, g := fs[..|fs| - 1], gs[..|gs| - 1];
      SortByKeys(less, f, g);
      InsertByKeys(less, SortFields(less, f), SortFields(less, g), fs[|fs| - 1], gs[|gs| - 1]);
    }
  }

  lemma ReplacedAt(less: KeyOrder, fs: seq<Field>, m: nat, x: Json) returns (p: nat)
    requires DistinctKeys(fs) && m < |fs|
    ensures var sx, sy := SortFields(less, fs), SortFields(less, fs[m := Field(fs[m].key, x)]);
            p < |sx| == |sy| && sx[p] == fs[m] && sy[p] == Field(fs[m].key, x)
  {
    var gs := fs[m := Field(fs[m].key, x)];
    SortByKeys(less, fs, gs);
    p := PositionOf(SortFields(less, fs), fs[m]);
    var k := PositionOf(gs, SortFields(less, gs)[p]);
    assert gs[k].key == fs[m].key && fs[k].key == gs[k].key;
  }

  lemma ValueShows(less: KeyOrder, fs: seq<Field>, m: nat, x: Json)
    requires DistinctKeys(fs) && m < |fs| && SortJson(less, x) != SortJson(less, fs[m].value)
    ensures SortJson(less, Obj(fs[m := Field(fs[m].key, x)])) != SortJson(less, Obj(fs))
  {
    var p := ReplacedAt(less, fs, m, x);
    SortedField(less, fs, p);
    SortedField(less, fs[m := Field(fs[m].key, x)], p);
  }

  lemma ValueIsSame(fs: seq<Field>, m: nat, x: Json)
    requires WellFormed(Obj(fs)) && m < |fs| && WellFormed(x) && SameDetails(fs[m].value, x)
    ensures var b := Obj(fs[m := Field(fs[m].key, x)]); WellFormed(b) && SameDetails(Obj(fs), b)
  {
    var gs := fs[m := Field(fs[m].key, x)];
    forall k ensures HasKey(fs, k) <==> HasKey(gs, k) {
      if f :| f in fs && f.key == k {
        var p := PositionOf(fs, f);
        assert gs[p] in gs && gs[p].key == k;
      }
      if g :| g in gs && g.key == k {
        var p := PositionOf(gs, g);
        assert fs[p] in fs && fs[p].key == k;
      }
    }
    forall p, q | 0 <= p < |fs| && 0 <= q < |gs| && fs[p].key == gs[q].key
      ensures SameDetails(fs[p].value, gs[q].value)
    {
      assert p == q;
      SameAsItself(fs[p].value);
    }
  }

  lemma ItemIsSame(items: seq<Json>, m: nat, x: Json)
    requires WellFormed(Arr(items)) && m < |items| && WellFormed(x) && SameDetails(items[m], x)
    ensures var b := Arr(items[m := x]); WellFormed(b) && SameDetails(Arr(items), b)
  {
    forall i | 0 <= i < |items| ensures SameDetails(items[i], items[m := x][i]) {
      SameAsItself(items[i]);
    }
  }

  lemma ItemShows(less: KeyOrder, items: seq<Json>, m: nat, x: Json)
    requires m < |items| && SortJson(less, x) != SortJson(less, items[m])
    ensures SortJson(less, Arr(items[m := x])) != SortJson(less, Arr(items))
  {
    assert SortJson(less, Arr(items[m := x])).items[m] != SortJson(less, Arr(items)).items[m];
  }

  /** Two keys that tie anywhere in a value give an equal value with another canonical form. */
  lemma {:induction false} TieShows(less: KeyOrder, v: Json) returns (b: Json)
    requires StrictWeak(less) && WellFormed(v) && !UntiedJson(less, v)
    ensures WellFormed(b) && SameDetails(v, b) && SortJson(less, b) != SortJson(less, v)
    decreases v
  {
    match v
    case Arr(items) =>
      var m :| 0 <= m < |items| && !UntiedJson(less, items[m]);
      var x := TieShows(less, items[m]);
      b := Arr(items[m := x]);
      ItemIsSame(items, m, x);
      ItemShows(less, items, m, x);
    case Obj(fields) =>
      if Untied(less, fields) {
        var m :| 0 <= m < |fields| && !UntiedJson(less, fields[m].value);
        var x := TieShows(less, fields[m].value);
        b := Obj(fields[m := Field(fields[m].key, x)]);
        ValueIsSame(fields, m, x);
        ValueShows(less, fields, m, x);
      } else {
        var i, j :| 0 <= i < j < |fields| && !less(fields[i].key, fields[j].key) && !less(fields[j].key, fields[i].key);
        b := Obj(fields[i := fields[j]][j := fields[i]]);
        SwapIsSame(fields, i, j);
        SwappedTieShows(less, fields, i, j);
      }
  }

  /** All orders of a value's keys have one canonical form if and only if no two keys of one of its objects tie. */
  lemma OrderIsForgottenExactly(less: KeyOrder, v: Json)
    requires StrictWeak(less) && WellFormed(v)
    ensures UntiedJson(less, v)
            <==> forall b :: WellFormed(b) && SameDetails(v, b) ==> SortJson(less, b) == SortJson(less, v)
  {
    if UntiedJson(less, v) {
      forall b | WellFormed(b) && SameDetails(v, b) ensures SortJson(less, b) == SortJson(less, v) {
        SameDetailsSortAlike(less, v, b);
      }
    } else {
      var b := TieShows(less, v);
    }
  }
}
