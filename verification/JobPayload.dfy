/**
  The bytes a job signature covers (internal/jobsign/jobsign.go, Canonical):
  every field length-prefixed, every keyword value written with its type, so
  that two different jobs never share bytes, and one job has one spelling
  whatever order its maps are visited in. A number is its canonical decimal text.

  Each writer here takes what is written after it, so the text is built from
  the back.
*/
module JobPayload {
  import opened Texts
  import opened Sorting

  datatype Value =
    | Null
    | Bool(on: bool)
    | Number(text: string)
    | Text(text: string)
    | List(items: seq<Value>)
    | Map(fields: map<string, Value>)
    | Other(goType: string)  // nothing JSON can have produced

  datatype Payload = Payload(
    jid: string, target: string, targetKind: string, fun: string, args: seq<string>,
    kwargs: map<string, Value>, env: string, expires: string)

  function Counted(name: string, n: nat, mark: char, rest: string): string {
    (name + ":") + (Decimal(n) + [mark] + rest)
  }

  function Field(name: string, value: string, rest: string): string {
    Counted(name, |value|, ':', value + (";" + rest))
  }

  ghost function Typed(v: Value, rest: string): string
    decreases v, 1, 0
  {
    match v
    case Null => "null;" + rest
    case Bool(on) => (if on then "bool:true;" else "bool:false;") + rest
    case Number(text) => Field("num", text, rest)
    case Text(text) => Field("str", text, rest)
    case List(items) => Counted("list", |items|, ';', TypedItems(items, rest))
    case Map(fields) => Counted("map", |fields|, ';', TypedFields("key", v, SortedKeys(fields.Keys), rest))
    case Other(goType) => Field("unencodable", goType, rest)
  }

  ghost function TypedItems(items: seq<Value>, rest: string): string
    decreases items, 2, 0
  {
    if items == [] then rest else Typed(items[0], TypedItems(items[1..], rest))
  }

  /** Some fields of a map, in the order of `keys`. */
  ghost function TypedFields(name: string, v: Value, keys: seq<string>, rest: string): string
    requires v.Map? && forall k | k in keys :: k in v.fields
    decreases v, 0, |keys|
  {
    if keys == [] then rest
    else Field(name, keys[0], Typed(v.fields[keys[0]], TypedFields(name, v, keys[1..], rest)))
  }

  function Args(args: seq<string>, rest: string): string {
    if args == [] then rest else Field("arg", args[0], Args(args[1..], rest))
  }

  const DOMAIN: string := "halite-job-v2\0"

  ghost function Keywords(p: Payload): string {
    Counted("kwargc", |p.kwargs|, ';',
      TypedFields("kwarg", Map(p.kwargs), SortedKeys(p.kwargs.Keys), Field("env", p.env, Field("expires", p.expires, ""))))
  }

  ghost function Canonical(p: Payload): string {
    DOMAIN +
    Field("jid", p.jid, Field("target", p.target, Field("target_kind", p.targetKind, Field("fun", p.fun,
      Counted("argc", |p.args|, ';', Args(p.args, Keywords(p)))))))
  }

  // ---- The builder --------------------------------------------------------------

  // Each step is given, for its proof alone, what will be written after it.

  method WriteCounted(b: string, name: string, n: nat, mark: char, ghost rest: string) returns (r: string)
    ensures r + rest == b + Counted(name, n, mark, rest)
  {
    r := b + (name + ":" + Decimal(n) + [mark]);
    assert name + ":" + Decimal(n) + [mark] + rest == Counted(name, n, mark, rest);
  }

  method WriteField(b: string, name: string, value: string, ghost rest: string) returns (r: string)
    ensures r + rest == b + Field(name, value, rest)
  {
    r := WriteCounted(b, name, |value|, ':', value + (";" + rest));
    ghost var before := r;
    r := r + value + ";";
    assert r + rest == before + (value + (";" + rest));
  }

  method WriteTyped(b: string, v: Value, ghost rest: string) returns (r: string)
    ensures r + rest == b + Typed(v, rest)
    decreases v, 1, 0
  {
    match v {
      case Null => r := b + "null;";
      case Bool(on) => r := b + if on then "bool:true;" else "bool:false;";
      case Number(text) => r := WriteField(b, "num", text, rest);
      case Text(text) => r := WriteField(b, "str", text, rest);
      case List(items) =>
        r := WriteCounted(b, "list", |items|, ';', TypedItems(items, rest));
        r := WriteItems(r, items, rest);
      case Map(fields) =>
        var keys := CollectSorted(fields.Keys);
        r := WriteCounted(b, "map", |keys|, ';', TypedFields("key", v, keys, rest));
        r := WriteFields(r, "key", v, keys, rest);
      case Other(goType) => r := WriteField(b, "unencodable", goType, rest);
    }
  }

  method WriteItems(b: string, items: seq<Value>, ghost rest: string) returns (r: string)
    ensures r + rest == b + TypedItems(items, rest)
    decreases items, 2, 0
  {
    r := b;
    for i := 0 to |items|
      invariant r + TypedItems(items[i..], rest) == b + TypedItems(items, rest)
    {
      assert items[i..][1..] == items[i + 1..];
      r := WriteTyped(r, items[i], TypedItems(items[i + 1..], rest));
    }
  }

  method WriteFields(b: string, name: string, v: Value, keys: seq<string>, ghost rest: string) returns (r: string)
    requires v.Map? && forall k | k in keys :: k in v.fields
    ensures r + rest == b + TypedFields(name, v, keys, rest)
    decreases v, 0, 0
  {
    r := b;
    for i := 0 to |keys|
      invariant r + TypedFields(name, v, keys[i..], rest) == b + TypedFields(name, v, keys, rest)
    {
      assert keys[i..][1..] == keys[i + 1..];
      ghost var after := TypedFields(name, v, keys[i + 1..], rest);
      r := WriteField(r, name, keys[i], Typed(v.fields[keys[i]], after));
      r := WriteTyped(r, v.fields[keys[i]], after);
    }
  }

  method WriteArgs(b: string, args: seq<string>, ghost rest: string) returns (r: string)
    ensures r + rest == b + Args(args, rest)
  {
    r := b;
    for i := 0 to |args|
      invariant r + Args(args[i..], rest) == b + Args(args, rest)
    {
      assert args[i..][1..] == args[i + 1..];
      r := WriteField(r, "arg", args[i], Args(args[i + 1..], rest));
    }
  }

  /** canonical: whatever order the maps are visited in, these bytes. */
  method WriteCanonical(p: Payload) returns (b: string)
    ensures b == Canonical(p)
  {
    ghost var args := Counted("argc", |p.args|, ';', Args(p.args, Keywords(p)));
    ghost var fun := Field("fun", p.fun, args);
    ghost var kind := Field("target_kind", p.targetKind, fun);
    ghost var target := Field("target", p.target, kind);
    b := WriteField(DOMAIN, "jid", p.jid, target);
    b := WriteField(b, "target", p.target, kind);
    b := WriteField(b, "target_kind", p.targetKind, fun);
    b := WriteField(b, "fun", p.fun, args);
    b := WriteCounted(b, "argc", |p.args|, ';', Args(p.args, Keywords(p)));
    b := WriteArgs(b, p.args, Keywords(p));
    b := WriteKeywords(b, p);
  }

  method WriteKeywords(b: string, p: Payload) returns (r: string)
    ensures r == b + Keywords(p)
  {
    ghost var expires := Field("expires", p.expires, "");
    ghost var env := Field("env", p.env, expires);
    var keys := CollectSorted(p.kwargs.Keys);
    r := WriteCounted(b, "kwargc", |keys|, ';', TypedFields("kwarg", Map(p.kwargs), keys, env));
    r := WriteFields(r, "kwarg", Map(p.kwargs), keys, env);
    r := WriteField(r, "env", p.env, expires);
    r := WriteField(r, "expires", p.expires, "");
    assert r + "" == r;
  }

  // ---- One field at a time -------------------------------------------------------

  lemma {:induction false} CountedUnique(name: string, mark: char, m: nat, r: string, n: nat, q: string)
    requires mark < '0' || '9' < mark
    requires Counted(name, m, mark, r) == Counted(name, n, mark, q)
    ensures m == n && r == q
  {
    SplitAtLength(name + ":", Decimal(m) + [mark] + r, name + ":", Decimal(n) + [mark] + q);
    SplitAtMark(Decimal(m), r, Decimal(n), q, mark);
    DecimalInjective(m, n);
  }

  /** A named field is read back one way, whatever it holds and whatever follows it. */
  lemma {:induction false} FieldUnique(name: string, s: string, r: string, t: string, q: string)
    requires Field(name, s, r) == Field(name, t, q)
    ensures s == t && r == q
  {
    CountedUnique(name, ':', |s|, s + (";" + r), |t|, t + (";" + q));
    SplitAtLength(s, ";" + r, t, ";" + q);
    SplitAtLength(";", r, ";", q);
  }

  /** The first three characters say what kind of value follows. */
  function Tag(v: Value): string {
    match v
    case Null => "nul"
    case Bool(_) => "boo"
    case Number(_) => "num"
    case Text(_) => "str"
    case List(_) => "lis"
    case Map(_) => "map"
    case Other(_) => "une"
  }

  lemma {:induction false} CountedStarts(name: string, n: nat, mark: char, rest: string)
    requires |name| >= 3
    ensures |Counted(name, n, mark, rest)| >= 3 && Counted(name, n, mark, rest)[..3] == name[..3]
  {
  }

  lemma {:induction false} TypedStartsWithTag(v: Value, r: string)
    ensures |Typed(v, r)| >= 3 && Typed(v, r)[..3] == Tag(v)
  {
    match v {
      case Null =>
      case Bool(_) =>
      case Number(text) => CountedStarts("num", |text|, ':', text + (";" + r));
      case Text(text) => CountedStarts("str", |text|, ':', text + (";" + r));
      case List(items) => CountedStarts("list", |items|, ';', TypedItems(items, r));
      case Map(fields) => CountedStarts("map", |fields|, ';', TypedFields("key", v, SortedKeys(fields.Keys), r));
      case Other(goType) => CountedStarts("unencodable", |goType|, ':', goType + (";" + r));
    }
  }

  lemma {:induction false} SameKind(v: Value, r: string, w: Value, q: string)
    requires Typed(v, r) == Typed(w, q)
    ensures Tag(v) == Tag(w)
    ensures v.Null? == w.Null? && v.Bool? == w.Bool? && v.Number? == w.Number?
    ensures v.Text? == w.Text? && v.List? == w.List? && v.Map? == w.Map? && v.Other? == w.Other?
  {
    TypedStartsWithTag(v, r);
    TypedStartsWithTag(w, q);
    assert Tag(v)[0] == Tag(w)[0] && Tag(v)[2] == Tag(w)[2];
  }

  // ---- Values ------------------------------------------------------------------

  /** Typed values form a prefix code: what follows one never changes how it reads. */
  lemma {:induction false} TypedUnique(v: Value, r: string, w: Value, q: string)
    requires Typed(v, r) == Typed(w, q)
    ensures v == w && r == q
    decreases v, 1, 0
  {
    SameKind(v, r, w, q);
    match v {
      case Null => SplitAtLength("null;", r, "null;", q);
      case Bool(on) => BoolUnique(on, r, w.on, q);
      case Number(text) => FieldUnique("num", text, r, w.text, q);
      case Text(text) => FieldUnique("str", text, r, w.text, q);
      case List(items) =>
        CountedUnique("list", ';', |items|, TypedItems(items, r), |w.items|, TypedItems(w.items, q));
        ItemsUnique(items, r, w.items, q);
      case Map(fields) =>
        var k, l := SortedKeys(fields.Keys), SortedKeys(w.fields.Keys);
        CountedUnique("map", ';', |fields|, TypedFields("key", v, k, r), |w.fields|, TypedFields("key", w, l, q));
        FieldsUnique("key", v, k, r, w, l, q);
        SameFields(fields, w.fields);
      case Other(goType) => FieldUnique("unencodable", goType, r, w.goType, q);
    }
  }

  lemma {:induction false} BoolUnique(on: bool, r: string, off: bool, q: string)
    requires Typed(Bool(on), r) == Typed(Bool(off), q)
    ensures off == on && r == q
  {
    var x, y := if on then "bool:true;" else "bool:false;", if off then "bool:true;" else "bool:false;";
    assert (x + r)[5] == x[5] && (y + q)[5] == y[5];
    SplitAtLength(x, r, y, q);
  }

  lemma {:induction false} ItemsUnique(a: seq<Value>, r: string, b: seq<Value>, q: string)
    requires |a| == |b| && TypedItems(a, r) == TypedItems(b, q)
    ensures a == b && r == q
    decreases a, 2, 0
  {
    if a != [] {
      TypedUnique(a[0], TypedItems(a[1..], r), b[0], TypedItems(b[1..], q));
      ItemsUnique(a[1..], r, b[1..], q);
      assert a == [a[0]] + a[1..] && b == [b[0]] + b[1..];
    }
  }

  lemma {:induction false} FieldsUnique(
    name: string, v: Value, k: seq<string>, r: string, w: Value, l: seq<string>, q: string)
    requires v.Map? && w.Map? && (forall x | x in k :: x in v.fields) && (forall x | x in l :: x in w.fields)
    requires |k| == |l| && TypedFields(name, v, k, r) == TypedFields(name, w, l, q)
    ensures k == l && r == q && forall x | x in k :: v.fields[x] == w.fields[x]
    decreases v, 0, |k|
  {
    if k != [] {
      var x, y := TypedFields(name, v, k[1..], r), TypedFields(name, w, l[1..], q);
      FieldUnique(name, k[0], Typed(v.fields[k[0]], x), l[0], Typed(w.fields[l[0]], y));
      TypedUnique(v.fields[k[0]], x, w.fields[l[0]], y);
      FieldsUnique(name, v, k[1..], r, w, l[1..], q);
      assert k == [k[0]] + k[1..] && l == [l[0]] + l[1..];
    }
  }

  lemma {:induction false} SameFields(m: map<string, Value>, n: map<string, Value>)
    requires var keys := SortedKeys(m.Keys);
             keys == SortedKeys(n.Keys) && forall x | x in keys :: x in m && x in n && m[x] == n[x]
    ensures m == n
  {
    assert m.Keys == Elements(SortedKeys(m.Keys)) && n.Keys == Elements(SortedKeys(n.Keys));
  }

  lemma {:induction false} ArgsUnique(a: seq<string>, r: string, b: seq<string>, q: string)
    requires |a| == |b| && Args(a, r) == Args(b, q)
    ensures a == b && r == q
  {
    if a != [] {
      FieldUnique("arg", a[0], Args(a[1..], r), b[0], Args(b[1..], q));
      ArgsUnique(a[1..], r, b[1..], q);
      assert a == [a[0]] + a[1..] && b == [b[0]] + b[1..];
    }
  }

  // ---- Whole payloads -----------------------------------------------------------

  lemma {:induction false} KeywordsUnique(p: Payload, o: Payload)
    requires Keywords(p) == Keywords(o)
    ensures p.kwargs == o.kwargs && p.env == o.env && p.expires == o.expires
  {
    var x, y := Field("expires", p.expires, ""), Field("expires", o.expires, "");
    var r, q := Field("env", p.env, x), Field("env", o.env, y);
    var k, l := SortedKeys(p.kwargs.Keys), SortedKeys(o.kwargs.Keys);
    CountedUnique("kwargc", ';', |p.kwargs|, TypedFields("kwarg", Map(p.kwargs), k, r), |o.kwargs|, TypedFields("kwarg", Map(o.kwargs), l, q));
    FieldsUnique("kwarg", Map(p.kwargs), k, r, Map(o.kwargs), l, q);
    SameFields(p.kwargs, o.kwargs);
    FieldUnique("env", p.env, x, o.env, y);
    FieldUnique("expires", p.expires, "", o.expires, "");
  }

  /** A signature authorises one job: equal bytes mean equal jobs, in every field and
      in the type of every keyword value. */
  lemma {:induction false} CanonicalDetermines(p: Payload, o: Payload)
    ensures Canonical(p) == Canonical(o) <==> p == o
  {
    if Canonical(p) == Canonical(o) {
      var f, f' := Counted("argc", |p.args|, ';', Args(p.args, Keywords(p))), Counted("argc", |o.args|, ';', Args(o.args, Keywords(o)));
      var e, e' := Field("fun", p.fun, f), Field("fun", o.fun, f');
      var d, d' := Field("target_kind", p.targetKind, e), Field("target_kind", o.targetKind, e');
      var c, c' := Field("target", p.target, d), Field("target", o.target, d');
      SplitAtLength(DOMAIN, Field("jid", p.jid, c), DOMAIN, Field("jid", o.jid, c'));
      FieldUnique("jid", p.jid, c, o.jid, c');
      FieldUnique("target", p.target, d, o.target, d');
      FieldUnique("target_kind", p.targetKind, e, o.targetKind, e');
      FieldUnique("fun", p.fun, f, o.fun, f');
      CountedUnique("argc", ';', |p.args|, Args(p.args, Keywords(p)), |o.args|, Args(o.args, Keywords(o)));
      ArgsUnique(p.args, Keywords(p), o.args, Keywords(o));
      KeywordsUnique(p, o);
    }
  }

  // ---- The encoding it replaced ----------------------------------------------------

  /** scalarV1, for the values that are not structures: bare text. */
  function ScalarV1(v: Value): string
    requires !v.List? && !v.Map? && !v.Other?
  {
    match v
    case Null => "null"
    case Bool(on) => if on then "true" else "false"
    case Number(text) => text
    case Text(text) => text
  }

  /** Version 1 wrote a boolean and the text that spells it as the same bytes. */
  lemma {:induction false} Version1Confuses(on: bool, rest: string)
    ensures Field("value", ScalarV1(Bool(on)), rest) == Field("value", ScalarV1(Text(if on then "true" else "false")), rest)
    ensures Typed(Bool(on), rest) != Typed(Text(if on then "true" else "false"), rest)
  {
    TypedStartsWithTag(Bool(on), rest);
    TypedStartsWithTag(Text(if on then "true" else "false"), rest);
  }

  // ---- The documented bytes -----------------------------------------------------------

  lemma {:induction false} Decimals()
    ensures Decimal(1) == "1" && Decimal(2) == "2" && Decimal(4) == "4" && Decimal(5) == "5" && Decimal(6) == "6"
    ensures Decimal(11) == "11" && Decimal(20) == "20" && Decimal(21) == "21"
  {
  }

  /** A field is its name, its length and its value. */
  lemma {:induction false} FieldText(name: string, value: string, length: string, rest: string)
    requires Decimal(|value|) == length
    ensures Field(name, value, rest) == (name + ":" + length + ":" + value + ";") + rest
  {
  }

  lemma {:induction false} CountedText(name: string, n: nat, length: string, rest: string)
    requires Decimal(n) == length
    ensures Counted(name, n, ';', rest) == (name + ":" + length + ";") + rest
  {
  }

  lemma {:induction false} TwoKeys(a: string, b: string)
    requires Before(a, b)
    ensures SortedKeys({a, b}) == [a, b]
  {
    Total(a, b);
    assert Elements([a, b]) == {a, b};
    SortedUnique(SortedKeys({a, b}), [a, b]);
  }

  function ExamplePillar(): Value {
    Map(map["n" := Number("3"), "l" := List([Text("a"), Null])])
  }

  function Example(): Payload {
    Payload("20261015T120000000001", "web1", "glob", "state.apply", ["nginx"],
            map["test" := Bool(true), "pillar" := ExamplePillar()], "base", "2026-10-15T12:15:00Z")
  }

  lemma {:induction false} ExamplePillarText(rest: string)
    ensures Typed(ExamplePillar(), rest) ==
            "map:2;" + ("key:1:l;" + ("list:2;" + ("str:1:a;" + ("null;" + ("key:1:n;" + ("num:1:3;" + rest))))))
  {
    var v := ExamplePillar();
    Decimals();
    assert Before("l", "n");
    TwoKeys("l", "n");
    assert v.fields.Keys == {"l", "n"} && |v.fields| == 2;
    var n := "num:1:3;" + rest;
    FieldText("num", "3", "1", rest);
    assert Typed(Number("3"), rest) == n by { assert "num" + ":" + "1" + ":" + "3" + ";" == "num:1:3;"; }
    var keyed := "key:1:n;" + n;
    FieldText("key", "n", "1", n);
    assert TypedFields("key", v, ["n"], rest) == keyed by {
      assert "key" + ":" + "1" + ":" + "n" + ";" == "key:1:n;";
      assert ["n"][1..] == [];
    }
    ExampleList(keyed);
    var list := "list:2;" + ("str:1:a;" + ("null;" + keyed));
    FieldText("key", "l", "1", list);
    assert TypedFields("key", v, ["l", "n"], rest) == "key:1:l;" + list by {
      assert "key" + ":" + "1" + ":" + "l" + ";" == "key:1:l;";
      assert ["l", "n"][1..] == ["n"];
    }
    CountedText("map", 2, "2", "key:1:l;" + list);
    assert "map" + ":" + "2" + ";" == "map:2;";
  }

  lemma {:induction false} ExampleList(rest: string)
    ensures Typed(List([Text("a"), Null]), rest) == "list:2;" + ("str:1:a;" + ("null;" + rest))
  {
    Decimals();
    var items := [Text("a"), Null];
    assert items[1..] == [Null] && [Null][1..] == [];
    assert TypedItems([Null], rest) == "null;" + rest;
    FieldText("str", "a", "1", "null;" + rest);
    assert "str" + ":" + "1" + ":" + "a" + ";" == "str:1:a;";
    CountedText("list", 2, "2", TypedItems(items, rest));
    assert "list" + ":" + "2" + ";" == "list:2;";
  }

  lemma {:induction false} ExampleJid(rest: string)
    ensures Field("jid", "20261015T120000000001", rest) == "jid:21:20261015T120000000001;" + rest
  {
    Decimals();
    FieldText("jid", "20261015T120000000001", "21", rest);
    assert "jid" + ":" + "21" + ":" + "20261015T120000000001" + ";" == "jid:21:20261015T120000000001;";
  }

  lemma {:induction false} ExampleTarget(rest: string)
    ensures Field("target", "web1", rest) == "target:4:web1;" + rest
  {
    Decimals();
    FieldText("target", "web1", "4", rest);
    assert "target" + ":" + "4" + ":" + "web1" + ";" == "target:4:web1;";
  }

  lemma {:induction false} ExampleKind(rest: string)
    ensures Field("target_kind", "glob", rest) == "target_kind:4:glob;" + rest
  {
    Decimals();
    FieldText("target_kind", "glob", "4", rest);
    assert "target_kind" + ":" + "4" + ":" + "glob" + ";" == "target_kind:4:glob;";
  }

  lemma {:induction false} ExampleFun(rest: string)
    ensures Field("fun", "state.apply", rest) == "fun:11:state.apply;" + rest
  {
    Decimals();
    FieldText("fun", "state.apply", "11", rest);
    assert "fun" + ":" + "11" + ":" + "state.apply" + ";" == "fun:11:state.apply;";
  }

  lemma {:induction false} ExampleArg(rest: string)
    ensures Field("arg", "nginx", rest) == "arg:5:nginx;" + rest
  {
    Decimals();
    FieldText("arg", "nginx", "5", rest);
    assert "arg" + ":" + "5" + ":" + "nginx" + ";" == "arg:5:nginx;";
  }

  lemma {:induction false} ExamplePillarField(rest: string)
    ensures Field("kwarg", "pillar", rest) == "kwarg:6:pillar;" + rest
  {
    Decimals();
    FieldText("kwarg", "pillar", "6", rest);
    assert "kwarg" + ":" + "6" + ":" + "pillar" + ";" == "kwarg:6:pillar;";
  }

  lemma {:induction false} ExampleTest(rest: string)
    ensures Field("kwarg", "test", rest) == "kwarg:4:test;" + rest
  {
    Decimals();
    FieldText("kwarg", "test", "4", rest);
    assert "kwarg" + ":" + "4" + ":" + "test" + ";" == "kwarg:4:test;";
  }

  lemma {:induction false} ExampleEnv(rest: string)
    ensures Field("env", "base", rest) == "env:4:base;" + rest
  {
    Decimals();
    FieldText("env", "base", "4", rest);
    assert "env" + ":" + "4" + ":" + "base" + ";" == "env:4:base;";
  }

  lemma {:induction false} ExampleExpires(rest: string)
    ensures Field("expires", "2026-10-15T12:15:00Z", rest) == "expires:20:2026-10-15T12:15:00Z;" + rest
  {
    Decimals();
    FieldText("expires", "2026-10-15T12:15:00Z", "20", rest);
    assert "expires" + ":" + "20" + ":" + "2026-10-15T12:15:00Z" + ";" == "expires:20:2026-10-15T12:15:00Z;";
  }

  lemma {:induction false} ExampleCounts(rest: string)
    ensures Counted("argc", 1, ';', rest) == "argc:1;" + rest && Counted("kwargc", 2, ';', rest) == "kwargc:2;" + rest
  {
    Decimals();
    CountedText("argc", 1, "1", rest);
    CountedText("kwargc", 2, "2", rest);
    assert "argc" + ":" + "1" + ";" == "argc:1;" && "kwargc" + ":" + "2" + ";" == "kwargc:2;";
  }

  /** The documented encoding, byte for byte, of the documented job. */
  lemma {:induction false} DocumentedEncoding()
    ensures Canonical(Example()) ==
            "halite-job-v2\0" + ("jid:21:20261015T120000000001;" + ("target:4:web1;" + ("target_kind:4:glob;"
            + ("fun:11:state.apply;" + ("argc:1;" + ("arg:5:nginx;" + ExampleKeywords()))))))
  {
    ExampleKeywordsText();
    var k := ExampleKeywords();
    ExampleArgs(k);
    var a := "argc:1;" + ("arg:5:nginx;" + k);
    ExampleFun(a);
    ExampleKind("fun:11:state.apply;" + a);
    ExampleTarget("target_kind:4:glob;" + ("fun:11:state.apply;" + a));
    ExampleJid("target:4:web1;" + ("target_kind:4:glob;" + ("fun:11:state.apply;" + a)));
  }

  lemma {:induction false} ExampleArgs(rest: string)
    ensures Counted("argc", 1, ';', Args(["nginx"], rest)) == "argc:1;" + ("arg:5:nginx;" + rest)
  {
    ExampleArg(rest);
    assert ["nginx"][1..] == [];
    assert Args([], rest) == rest;
    ExampleCounts(Args(["nginx"], rest));
  }

  function ExampleKeywords(): string {
    "kwargc:2;" + ("kwarg:6:pillar;" + ("map:2;" + ("key:1:l;" + ("list:2;" + ("str:1:a;" + ("null;" + ("key:1:n;" + ("num:1:3;"
    + ("kwarg:4:test;" + ("bool:true;" + ("env:4:base;" + ("expires:20:2026-10-15T12:15:00Z;" + ""))))))))))))
  }

  lemma {:induction false} ExampleTestField(rest: string)
    ensures TypedFields("kwarg", Map(Example().kwargs), ["test"], rest) == "kwarg:4:test;" + ("bool:true;" + rest)
  {
    var v := Map(Example().kwargs);
    assert ["test"][1..] == [];
    assert TypedFields("kwarg", v, [], rest) == rest;
    assert v.fields["test"] == Bool(true);
    ExampleTest("bool:true;" + rest);
  }

  lemma {:induction false} ExampleFields(rest: string)
    ensures TypedFields("kwarg", Map(Example().kwargs), ["pillar", "test"], rest) ==
            "kwarg:6:pillar;" + Typed(ExamplePillar(), "kwarg:4:test;" + ("bool:true;" + rest))
  {
    var v := Map(Example().kwargs);
    ExampleTestField(rest);
    assert ["pillar", "test"][1..] == ["test"];
    assert v.fields["pillar"] == ExamplePillar();
    ExamplePillarField(Typed(ExamplePillar(), "kwarg:4:test;" + ("bool:true;" + rest)));
  }

  lemma {:induction false} ExampleKeywordsText()
    ensures Keywords(Example()) == ExampleKeywords()
  {
    var p := Example();
    ExampleExpires("");
    ExampleEnv("expires:20:2026-10-15T12:15:00Z;" + "");
    var e := "env:4:base;" + ("expires:20:2026-10-15T12:15:00Z;" + "");
    ExampleFields(e);
    ExamplePillarText("kwarg:4:test;" + ("bool:true;" + e));
    assert Before("pillar", "test");
    TwoKeys("pillar", "test");
    assert p.kwargs.Keys == {"pillar", "test"} && |p.kwargs| == 2;
    ExampleCounts("kwarg:6:pillar;" + Typed(ExamplePillar(), "kwarg:4:test;" + ("bool:true;" + e)));
  }
}
