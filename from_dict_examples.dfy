/**
 * Concrete conversions over a small set of generated dataclasses:
 *
 *   Inner: a: int
 *   Outer: items: List[Inner]
 *   Node:  name: str, child: Dict[str, 'Node']
 *
 * The runtime answers `isinstance` as CPython 3.8 and 3.9 do for these types:
 * exact answers for classes and for bare `List` and `Dict`, a TypeError for
 * subscripted generics, `Union` and `Literal` (from 3.10 on, a `Union` of plain
 * classes answers instead; only True answers change a result, see
 * `ConverterProperties.HandleAgrees`).
 */
module ConverterExamples {
  import opened Wrappers
  import opened LogicalTypes
  import opened Converter

  const Classes: map<string, map<string, Ty>> := map[
    "Inner" := map["a" := Prim(Int)],
    "Outer" := map["items" := ListOf([Record("Inner")])],
    "Node" := map["name" := Prim(Str), "child" := DictOf([Prim(Str), FwdRef("Node")])]
  ]

  function PyIsInstance(t: Ty, v: Val): Option<bool> {
    match t
    case Prim(Str) => Some(v.VStr?)
    case Prim(Int) => Some(v.VInt? || v.VBool?)
    case Prim(Float) => Some(v.VFloat?)
    case Prim(Bool) => Some(v.VBool?)
    case Record(name) => Some(v.VRecord? && v.cls == name)
    case ListOf(args) => if args == [] then Some(v.VList?) else None
    case DictOf(args) => if args == [] then Some(v.VMap?) else None
    case Logical(_) => Some(false)
    case Other(_) => Some(false)
    case _ => None
  }

  /** Calling a dataclass with keyword arguments. */
  function Construct(cls: string, kwargs: seq<(string, Val)>): Result<Val, Err> {
    Success(VRecord(cls, kwargs))
  }

  function LibraryParse(kind: ParserKind, v: Val): Result<Val, Err> {
    Failure(ConversionFailed)
  }

  const Py: Runtime := Runtime(Classes, PyIsInstance, Construct, LibraryParse)

  /** The string "5" under `int` is not coerced. */
  lemma StringUnderIntIsNotCoerced()
    ensures Handle(Py, "Inner", Prim(Int), VStr("5")) == Success(VStr("5"))
  {
  }

  /** time-millis 3661000 converts to 01:01:01. */
  lemma TimeMillisFieldExample()
    ensures Handle(Py, "Inner", Logical("time-millis"), VInt(3_661_000)) == Success(VTime(TimeOfDay(1, 1, 1, 0)))
  {
    TimeMillisExample();
  }

  /** {"a": n} becomes `Inner(a=n)`. */
  lemma InnerFromDict(n: int)
    ensures FromDict(Py, "Inner", [("a", VInt(n))]) == Success(VRecord("Inner", [("a", VInt(n))]))
  {
    var fieldTypes := Py.records["Inner"];
    var record := [("a", VInt(n))];
    assert fieldTypes[record[0].0] == Prim(Int);
    assert Handle(Py, "Inner", fieldTypes[record[0].0], record[0].1) == Success(VInt(n));
    assert HandleFields(Py, "Inner", fieldTypes, record[1..]) == Success([]);
    assert HandleFields(Py, "Inner", fieldTypes, record).value == record;
  }

  /** A one-entry dict comprehension converts its single entry. */
  lemma OneField(rt: Runtime, cls: string, fieldTypes: map<string, Ty>, k: string, v: Val, x: Val)
    requires k in fieldTypes && Handle(rt, cls, fieldTypes[k], v) == Success(x)
    ensures HandleFields(rt, cls, fieldTypes, [(k, v)]) == Success([(k, x)])
  {
    var record := [(k, v)];
    assert record[0].0 == k && record[0].1 == v && record[1..] == [];
    assert HandleFields(rt, cls, fieldTypes, record[1..]) == Success([]);
    assert Handle(rt, cls, fieldTypes[record[0].0], record[0].1) == Success(x);
    var r := HandleFields(rt, cls, fieldTypes, record);
    assert r.Success? && r.value == [(k, x)];
  }

  /** A two-element list comprehension converts both elements, in order. */
  lemma TwoElements(rt: Runtime, cls: string, elemType: Ty, x0: Val, x1: Val, y0: Val, y1: Val)
    requires Handle(rt, cls, elemType, x0) == Success(y0) && Handle(rt, cls, elemType, x1) == Success(y1)
    ensures HandleList(rt, cls, elemType, [x0, x1]) == Success([y0, y1])
  {
    var xs := [x0, x1];
    var tail := xs[1..];
    assert tail == [x1] && tail[0] == x1 && tail[1..] == [];
    assert HandleList(rt, cls, elemType, tail[1..]) == Success([]);
    assert Handle(rt, cls, elemType, tail[0]) == Success(y1);
    var r1 := HandleList(rt, cls, elemType, tail);
    assert r1.Success? && r1.value == [y1];
    assert Handle(rt, cls, elemType, xs[0]) == Success(y0);
    var r := HandleList(rt, cls, elemType, xs);
    assert r.Success? && r.value == [y0, y1];
  }

  /** A record whose list field holds two nested records, order preserved. */
  lemma NestedListExample()
    ensures FromDict(Py, "Outer", [("items", VList([VMap([("a", VInt(1))]), VMap([("a", VInt(2))])]))])
            == Success(VRecord("Outer", [("items", VList([VRecord("Inner", [("a", VInt(1))]),
                                                         VRecord("Inner", [("a", VInt(2))])]))]))
  {
    InnerFromDict(1);
    InnerFromDict(2);
    var m1, m2 := VMap([("a", VInt(1))]), VMap([("a", VInt(2))]);
    var r1, r2 := VRecord("Inner", [("a", VInt(1))]), VRecord("Inner", [("a", VInt(2))]);
    assert Handle(Py, "Outer", Record("Inner"), m1) == Success(r1);
    assert Handle(Py, "Outer", Record("Inner"), m2) == Success(r2);
    TwoElements(Py, "Outer", Record("Inner"), m1, m2, r1, r2);
    var listType := ListOf([Record("Inner")]);
    assert [Record("Inner")][0] == Record("Inner");
    assert Handle(Py, "Outer", listType, VList([m1, m2])) == Success(VList([r1, r2]));
    OneField(Py, "Outer", Py.records["Outer"], "items", VList([m1, m2]), VList([r1, r2]));
  }

  /**
   * Under `Union[int, Inner]` the mapping {"a": 1} is returned raw: the `int`
   * variant is a primitive and passes the value through, so it never fails.
   */
  lemma UnionIntFirstKeepsRawMapping()
    ensures Handle(Py, "Outer", UnionOf([Prim(Int), Record("Inner")]), VMap([("a", VInt(1))]))
            == Success(VMap([("a", VInt(1))]))
  {
  }

  /** With the record variant first, the same mapping becomes an `Inner`. */
  lemma UnionRecordFirstBuildsRecord()
    ensures Handle(Py, "Outer", UnionOf([Record("Inner"), Prim(Int)]), VMap([("a", VInt(1))]))
            == Success(VRecord("Inner", [("a", VInt(1))]))
  {
    InnerFromDict(1);
    var variants := [Record("Inner"), Prim(Int)];
    assert variants[0] == Record("Inner");
    assert Handle(Py, "Outer", Record("Inner"), VMap([("a", VInt(1))])) == Success(VRecord("Inner", [("a", VInt(1))]));
  }

  /** The self-referential dict {"name": "leaf"} becomes one nested `Node`. */
  lemma SelfReferentialExample()
    ensures FromDict(Py, "Node", [("name", VStr("root")), ("child", VMap([("name", VStr("leaf"))]))])
            == Success(VRecord("Node", [("name", VStr("root")), ("child", VRecord("Node", [("name", VStr("leaf"))]))]))
  {
    var fieldTypes := Py.records["Node"];
    var childType := DictOf([Prim(Str), FwdRef("Node")]);
    assert fieldTypes["name"] == Prim(Str) && fieldTypes["child"] == childType;
    assert HasForwardRef(childType.args) by { assert childType.args[1].FwdRef?; }
    OneField(Py, "Node", fieldTypes, "name", VStr("leaf"), VStr("leaf"));
    var leaf := VRecord("Node", [("name", VStr("leaf"))]);
    assert FromDict(Py, "Node", [("name", VStr("leaf"))]) == Success(leaf);
    assert Handle(Py, "Node", childType, VMap([("name", VStr("leaf"))])) == Success(leaf);
    var record := [("name", VStr("root")), ("child", VMap([("name", VStr("leaf"))]))];
    assert record[1..] == [("child", VMap([("name", VStr("leaf"))]))];
    OneField(Py, "Node", fieldTypes, "child", VMap([("name", VStr("leaf"))]), leaf);
    assert Handle(Py, "Node", fieldTypes[record[0].0], record[0].1) == Success(VStr("root"));
    assert HandleFields(Py, "Node", fieldTypes, record[1..]) == Success([("child", leaf)]);
    var r := HandleFields(Py, "Node", fieldTypes, record);
    assert r.Success? && r.value == [("name", VStr("root")), ("child", leaf)];
  }

  /** Its keys are read as field names of `Node`, so a key like "k1" is a KeyError. */
  lemma SelfReferentialUnknownKeyFails()
    ensures FromDict(Py, "Node", [("child", VMap([("k1", VMap([("name", VStr("leaf"))]))]))]).Failure?
  {
    var fieldTypes := Py.records["Node"];
    var childType := DictOf([Prim(Str), FwdRef("Node")]);
    assert fieldTypes["child"] == childType && "k1" !in fieldTypes;
    assert HasForwardRef(childType.args) by { assert childType.args[1].FwdRef?; }
    var inner := [("k1", VMap([("name", VStr("leaf"))]))];
    assert inner[0].0 == "k1";
    assert FromDict(Py, "Node", inner).Failure?;
    assert Handle(Py, "Node", childType, VMap(inner)).Failure?;
    var record := [("child", VMap(inner))];
    assert record[0].0 == "child" && record[0].1 == VMap(inner);
  }

  /** A string under `List[str]` is split into its characters. */
  lemma StringUnderListIsSplit()
    ensures Handle(Py, "Inner", ListOf([Prim(Str)]), VStr("ab")) == Success(VList([VStr("a"), VStr("b")]))
  {
    var s := "ab";
    var tail := s[1..];
    assert s[0] == 'a' && tail == "b" && tail[0] == 'b' && tail[1..] == [];
    assert Handle(Py, "Inner", Prim(Str), VStr([s[0]])) == Success(VStr("a"));
    assert Handle(Py, "Inner", Prim(Str), VStr([tail[0]])) == Success(VStr("b"));
    assert HandleChars(Py, "Inner", Prim(Str), tail[1..]) == Success([]);
    var r1 := HandleChars(Py, "Inner", Prim(Str), tail);
    assert r1.Success? && r1.value == [VStr("b")];
    var r := HandleChars(Py, "Inner", Prim(Str), s);
    assert r.Success? && r.value == [VStr("a"), VStr("b")];
  }

  /** A falsy time-millis value is returned raw, not parsed as midnight. */
  lemma ZeroTimeMillisExample()
    ensures Handle(Py, "Inner", Logical("time-millis"), VInt(0)) == Success(VInt(0))
  {
  }
}
