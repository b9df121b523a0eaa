/**
 * The type-directed converter of fastavro_gen/from_dict.py.
 *
 * Python's runtime reflection is replaced by explicit data: a declared type
 * is a `Ty`, a raw or converted Python object is a `Val`, and everything the
 * converter asks the interpreter (the fields of a dataclass, `isinstance`,
 * calling a class, library parsers) is supplied by a `Runtime`.
 */
module Converter {
  import opened Wrappers
  import opened LogicalTypes

  /** The four members of PRIMITIVES: str, int, float, bool. */
  datatype PrimKind = Str | Int | Float | Bool

  /** A Python object, as far as the converter can observe it. */
  datatype Val =
    | VNone
    | VBool(b: bool)
    | VInt(i: int)
    | VStr(s: string)
      /** A float is opaque except for whether it is zero (and so falsy). */
    | VFloat(token: int, isZero: bool)
    | VList(items: seq<Val>)
      /** A dict with string keys, in insertion order. */
    | VMap(entries: seq<(string, Val)>)
      /** An instance of a dataclass, as built by calling the class. */
    | VRecord(cls: string, fields: seq<(string, Val)>)
    | VTime(time: TimeOfDay)
      /** Any other object (date, datetime, Decimal, bytes, ...) with its truth value. */
    | VOpaque(token: int, truthy: bool)

  /** A declared field type. */
  datatype Ty =
    | Prim(kind: PrimKind)
    | Record(name: string)               // a dataclass
    | ListOf(args: seq<Ty>)               // List[...] with its type arguments
    | DictOf(args: seq<Ty>)               // Dict[...] with its type arguments
    | UnionOf(variants: seq<Ty>)          // Union[...] / Optional[...]
    | LiteralOf(values: seq<Val>)         // Literal[...]
    | Logical(tag: string)                // a class carrying a `logicalType` attribute
    | FwdRef(name: string)                // typing.ForwardRef("Name")
    | Other(name: string)                 // anything else (NoneType, plain classes, ...)

  /** The only exception the model distinguishes: conversion failed. */
  datatype Err = ConversionFailed

  /**
   * What the converter learns from the interpreter.
   *  - records: for each dataclass, its field types (`fields(cls)`, `cls.__annotations__`);
   *  - isInstance: `isinstance(val, type)`, where None means the call raised;
   *  - construct: `cls(**kwargs)`, which may itself fail;
   *  - libraryParse: the registry parsers whose code is not part of this model.
   */
  datatype Runtime = Runtime(
    records: map<string, map<string, Ty>>,
    isInstance: (Ty, Val) -> Option<bool>,
    construct: (string, seq<(string, Val)>) -> Result<Val, Err>,
    libraryParse: (ParserKind, Val) -> Result<Val, Err>)

  /** Python's `bool(val)` for the objects the model knows. */
  predicate Truthy(v: Val) {
    match v
    case VNone => false
    case VBool(b) => b
    case VInt(i) => i != 0
    case VStr(s) => s != []
    case VFloat(_, isZero) => !isZero
    case VList(xs) => xs != []
    case VMap(es) => es != []
    case VRecord(_, _) => true
    case VTime(_) => true
    case VOpaque(_, truthy) => truthy
  }

  /** `_type in PRIMITIVES`. */
  predicate IsPrimitive(t: Ty) {
    t.Prim?
  }

  /** `getattr(_type, "logicalType", None) in LOGICAL_TYPE_MAP`. */
  predicate HasRegisteredLogicalType(t: Ty) {
    t.Logical? && t.tag in LogicalTypeMap
  }

  /** `any(isinstance(a, ForwardRef) for a in args)`. */
  predicate HasForwardRef(args: seq<Ty>) {
    exists i :: 0 <= i < |args| && args[i].FwdRef?
  }

  // Sizes used as the termination measure: a value strictly shrinks on every descent,
  // except that a Union retries the same value under a smaller type.

  function Size(v: Val): nat {
    match v
    case VStr(s) => 1 + |s|
    case VList(xs) => 1 + SizeList(xs)
    case VMap(es) => 1 + SizeEntries(es)
    case _ => 1
  }

  function SizeList(xs: seq<Val>): nat {
    if xs == [] then 0 else 1 + Size(xs[0]) + SizeList(xs[1..])
  }

  function SizeEntries(es: seq<(string, Val)>): nat {
    if es == [] then 0
    else
      assert es[0].1 < es[0];
      2 + |es[0].0| + Size(es[0].1) + SizeEntries(es[1..])
  }

  function TySize(t: Ty): nat {
    match t
    case ListOf(args) => 1 + TySizes(args)
    case DictOf(args) => 1 + TySizes(args)
    case UnionOf(ts) => 1 + TySizes(ts)
    case _ => 1
  }

  function TySizes(ts: seq<Ty>): nat {
    if ts == [] then 0 else TySize(ts[0]) + TySizes(ts[1..])
  }

  /** The keys of a dict, as the strings that iterating over it yields. */
  function KeyVals(es: seq<(string, Val)>): (ks: seq<Val>)
    ensures |ks| == |es|
    ensures forall i :: 0 <= i < |es| ==> ks[i] == VStr(es[i].0)
    ensures SizeList(ks) < 1 + SizeEntries(es)
  {
    if es == [] then [] else [VStr(es[0].0)] + KeyVals(es[1..])
  }

  /** Rebuilds a dict from converted entries. */
  function MapOf(r: Result<seq<(string, Val)>, Err>): Result<Val, Err> {
    match r
    case Success(es) => Success(VMap(es))
    case Failure(e) => Failure(e)
  }

  function ListOfResult(r: Result<seq<Val>, Err>): Result<Val, Err> {
    match r
    case Success(xs) => Success(VList(xs))
    case Failure(e) => Failure(e)
  }

  /** The integer a Python int or bool denotes (bool is a subclass of int). */
  function AsInt(v: Val): Option<int> {
    match v
    case VInt(i) => Some(i)
    case VBool(b) => Some(if b then 1 else 0)
    case _ => None
  }

  /**
   * `parser(val)` for a registry entry. The two time parsers are modelled:
   * `timedelta` accepts ints, bools and floats, refuses anything else with a
   * TypeError, and the addition to datetime.min overflows outside its range.
   * A float argument, and every other parser, is left to the runtime.
   */
  function ApplyParser(rt: Runtime, kind: ParserKind, v: Val): Result<Val, Err> {
    match kind
    case TimeMillis =>
      (match AsInt(v)
       case Some(ms) =>
         if InDatetimeRange(1000 * ms) then Success(VTime(ParseTimeMillis(ms))) else Failure(ConversionFailed)
       case None => if v.VFloat? then rt.libraryParse(kind, v) else Failure(ConversionFailed))
    case TimeMicros =>
      (match AsInt(v)
       case Some(us) =>
         if InDatetimeRange(us) then Success(VTime(ParseTimeMicros(us))) else Failure(ConversionFailed)
       case None => if v.VFloat? then rt.libraryParse(kind, v) else Failure(ConversionFailed))
    case _ => rt.libraryParse(kind, v)
  }

  /** `fromdict(cls, record)`: build an instance of dataclass `cls` from a dict. */
  function FromDict(rt: Runtime, cls: string, record: seq<(string, Val)>): Result<Val, Err>
    decreases SizeEntries(record), 0, 1
  {
    if cls !in rt.records then Failure(ConversionFailed)   // `fields` of a non-dataclass raises
    else
      match HandleFields(rt, cls, rt.records[cls], record)
      case Success(kwargs) => rt.construct(cls, kwargs)
      case Failure(e) => Failure(e)
  }

  /** `{k: _handle_type(fieldTypes[k], v, cls) for k, v in record.items()}`. */
  function HandleFields(rt: Runtime, cls: string, fieldTypes: map<string, Ty>, record: seq<(string, Val)>)
    : Result<seq<(string, Val)>, Err>
    decreases SizeEntries(record), 0, 0
  {
    if record == [] then Success([])
    else if record[0].0 !in fieldTypes then Failure(ConversionFailed)   // KeyError
    else
      match Handle(rt, cls, fieldTypes[record[0].0], record[0].1)
      case Failure(e) => Failure(e)
      case Success(x) =>
        match HandleFields(rt, cls, fieldTypes, record[1..])
        case Failure(e) => Failure(e)
        case Success(rest) => Success([(record[0].0, x)] + rest)
  }

  /** `{k: _handle_type(val_t, v, cls) for k, v in val.items()}`. */
  function HandleValues(rt: Runtime, cls: string, valueType: Ty, entries: seq<(string, Val)>)
    : Result<seq<(string, Val)>, Err>
    decreases SizeEntries(entries), 0, 0
  {
    if entries == [] then Success([])
    else
      match Handle(rt, cls, valueType, entries[0].1)
      case Failure(e) => Failure(e)
      case Success(x) =>
        match HandleValues(rt, cls, valueType, entries[1..])
        case Failure(e) => Failure(e)
        case Success(rest) => Success([(entries[0].0, x)] + rest)
  }

  /** `[_handle_type(subtype, v, cls) for v in val]` over a list (or a dict's keys). */
  function HandleList(rt: Runtime, cls: string, elemType: Ty, xs: seq<Val>): Result<seq<Val>, Err>
    decreases SizeList(xs), 0, 0
  {
    if xs == [] then Success([])
    else
      match Handle(rt, cls, elemType, xs[0])
      case Failure(e) => Failure(e)
      case Success(x) =>
        match HandleList(rt, cls, elemType, xs[1..])
        case Failure(e) => Failure(e)
        case Success(rest) => Success([x] + rest)
  }

  /** The same comprehension over a string, which iterates its characters. */
  function HandleChars(rt: Runtime, cls: string, elemType: Ty, s: string): Result<seq<Val>, Err>
    decreases Size(VStr(s)), TySize(elemType), 2
  {
    if s == [] then Success([])
    else
      match Handle(rt, cls, elemType, VStr([s[0]]))
      case Failure(e) => Failure(e)
      case Success(x) =>
        match HandleChars(rt, cls, elemType, s[1..])
        case Failure(e) => Failure(e)
        case Success(rest) => Success([x] + rest)
  }

  /** The `for subtype in args: try: return ... except: pass` loop of a Union. */
  function HandleUnion(rt: Runtime, cls: string, variants: seq<Ty>, v: Val): Result<Val, Err>
    decreases Size(v), TySizes(variants), 2
  {
    if variants == [] then Failure(ConversionFailed)   // falls through to "Failed parsing value"
    else
      match Handle(rt, cls, variants[0], v)
      case Success(x) => Success(x)
      case Failure(_) => HandleUnion(rt, cls, variants[1..], v)
  }

  /** `_handle_type(_type, val, cls)`: rules tried in the source's order. */
  function Handle(rt: Runtime, cls: string, t: Ty, v: Val): Result<Val, Err>
    decreases Size(v), TySize(t), 1
  {
    if v.VNone? then Success(VNone)
    else if rt.isInstance(t, v) == Some(true) then Success(v)
    else Dispatch(rt, cls, t, v)
  }

  /** The rules after `isinstance`, which a raising `isinstance` also reaches. */
  function Dispatch(rt: Runtime, cls: string, t: Ty, v: Val): Result<Val, Err>
    requires !v.VNone?
    decreases Size(v), TySize(t), 0
  {
    if !Truthy(v) then Success(v)
    else if IsPrimitive(t) then Success(v)
    else if HasRegisteredLogicalType(t) then ApplyParser(rt, LogicalTypeMap[t.tag].parser, v)
    else
      match t
      case Record(name) =>
        if v.VMap? then FromDict(rt, name, v.entries) else Failure(ConversionFailed)
      case LiteralOf(_) => Success(v)
      case ListOf(args) =>
        if |args| != 1 then Failure(ConversionFailed)   // `(subtype,) = args` raises
        else
          assert TySizes(args[1..]) == 0 && TySize(args[0]) < TySize(t);
          (match v
           case VList(xs) => ListOfResult(HandleList(rt, cls, args[0], xs))
           case VStr(s) => ListOfResult(HandleChars(rt, cls, args[0], s))
           case VMap(es) => ListOfResult(HandleList(rt, cls, args[0], KeyVals(es)))
           case _ => Failure(ConversionFailed))                     // not iterable
      case DictOf(args) =>
        if |args| != 2 || !v.VMap? then Failure(ConversionFailed)  // bad arity, or no `.items()`
        else if HasForwardRef(args) then FromDict(rt, cls, v.entries)
        else MapOf(HandleValues(rt, cls, args[1], v.entries))
      case UnionOf(variants) => HandleUnion(rt, cls, variants, v)
      case _ => Failure(ConversionFailed)                          // "Failed parsing value"
  }
}
