/**
 * What `_handle_type` and `fromdict` promise, rule by rule, in the order the
 * converter applies its rules, and how containers, unions and records are
 * converted element by element.
 */
module ConverterProperties {
  import opened Wrappers
  import opened LogicalTypes
  import opened Converter

  /** The value reaches the structural rules: not None and not already an instance. */
  predicate Unmatched(rt: Runtime, t: Ty, v: Val) {
    !v.VNone? && rt.isInstance(t, v) != Some(true)
  }

  // ---------------------------------------------------------------- short-circuits

  /** Rule 0: None converts to None under every declared type. */
  lemma NoneUnderEveryType(rt: Runtime, cls: string, t: Ty)
    ensures Handle(rt, cls, t, VNone) == Success(VNone)
  {
  }

  /** Rule 1: a value that is already an instance of the declared type is returned unchanged. */
  lemma InstancePassesThrough(rt: Runtime, cls: string, t: Ty, v: Val)
    requires rt.isInstance(t, v) == Some(true)
    ensures Handle(rt, cls, t, v) == Success(v)
  {
  }

  /** Rule 2: a falsy value (0, False, 0.0, "", [], {}) comes back unchanged under every type. */
  lemma FalsyPassesThrough(rt: Runtime, cls: string, t: Ty, v: Val)
    requires !Truthy(v)
    ensures Handle(rt, cls, t, v) == Success(v)
  {
  }

  /** Rule 3: under str, int, float or bool any value comes back unchanged, with no coercion. */
  lemma PrimitivePassesThrough(rt: Runtime, cls: string, k: PrimKind, v: Val)
    ensures Handle(rt, cls, Prim(k), v) == Success(v)
  {
  }

  /** Literal[...] returns the raw value, whether or not it is one of the literal's values. */
  lemma LiteralIsNotValidated(rt: Runtime, cls: string, values: seq<Val>, v: Val)
    ensures Handle(rt, cls, LiteralOf(values), v) == Success(v)
  {
  }

  // ---------------------------------------------------------------- isinstance

  /** Two `isinstance` oracles that say True on exactly the same questions. */
  ghost predicate SameVerdicts(rt: Runtime, f: (Ty, Val) -> Option<bool>) {
    forall t: Ty, v: Val :: (rt.isInstance(t, v) == Some(true)) == (f(t, v) == Some(true))
  }

  /** An `isinstance` that raises is treated as one that answers False. */
  function SwallowRaise(f: (Ty, Val) -> Option<bool>): (g: (Ty, Val) -> Option<bool>)
    ensures forall t: Ty, v: Val :: g(t, v) == if f(t, v).None? then Some(false) else f(t, v)
  {
    (t: Ty, v: Val) => if f(t, v).None? then Some(false) else f(t, v)
  }

  /** The exception of a raising `isinstance` is swallowed: conversion proceeds as if it said False. */
  lemma IsInstanceRaiseIsSwallowed(rt: Runtime, cls: string, t: Ty, v: Val)
    ensures Handle(rt, cls, t, v) == Handle(rt.(isInstance := SwallowRaise(rt.isInstance)), cls, t, v)
  {
    HandleAgrees(rt, SwallowRaise(rt.isInstance), cls, t, v);
  }

  /** Conversion depends on `isinstance` only through whether it answers True. */
  lemma {:induction false} HandleAgrees(rt: Runtime, f: (Ty, Val) -> Option<bool>, cls: string, t: Ty, v: Val)
    requires SameVerdicts(rt, f)
    ensures Handle(rt, cls, t, v) == Handle(rt.(isInstance := f), cls, t, v)
    decreases Size(v), TySize(t), 1
  {
    if !v.VNone? && rt.isInstance(t, v) != Some(true) {
      DispatchAgrees(rt, f, cls, t, v);
    }
  }

  lemma {:induction false} DispatchAgrees(rt: Runtime, f: (Ty, Val) -> Option<bool>, cls: string, t: Ty, v: Val)
    requires SameVerdicts(rt, f) && !v.VNone?
    ensures Dispatch(rt, cls, t, v) == Dispatch(rt.(isInstance := f), cls, t, v)
    decreases Size(v), TySize(t), 0
  {
    if Truthy(v) && !IsPrimitive(t) && !HasRegisteredLogicalType(t) {
      match t
      case Record(name) =>
        if v.VMap? { FromDictAgrees(rt, f, name, v.entries); }
      case ListOf(args) =>
        if |args| == 1 {
          assert TySizes(args[1..]) == 0 && TySize(args[0]) < TySize(t);
          match v
          case VList(xs) => HandleListAgrees(rt, f, cls, args[0], xs);
          case VStr(s) => HandleCharsAgrees(rt, f, cls, args[0], s);
          case VMap(es) => HandleListAgrees(rt, f, cls, args[0], KeyVals(es));
          case _ =>
        }
      case DictOf(args) =>
        if |args| == 2 && v.VMap? {
          if HasForwardRef(args) {
            FromDictAgrees(rt, f, cls, v.entries);
          } else {
            HandleValuesAgrees(rt, f, cls, args[1], v.entries);
          }
        }
      case UnionOf(variants) => HandleUnionAgrees(rt, f, cls, variants, v);
      case _ =>
    }
  }

  lemma {:induction false} FromDictAgrees(rt: Runtime, f: (Ty, Val) -> Option<bool>, cls: string, record: seq<(string, Val)>)
    requires SameVerdicts(rt, f)
    ensures FromDict(rt, cls, record) == FromDict(rt.(isInstance := f), cls, record)
    decreases SizeEntries(record), 0, 1
  {
    if cls in rt.records {
      HandleFieldsAgrees(rt, f, cls, rt.records[cls], record);
    }
  }

  lemma {:induction false} HandleFieldsAgrees(rt: Runtime, f: (Ty, Val) -> Option<bool>, cls: string,
                                              fieldTypes: map<string, Ty>, record: seq<(string, Val)>)
    requires SameVerdicts(rt, f)
    ensures HandleFields(rt, cls, fieldTypes, record) == HandleFields(rt.(isInstance := f), cls, fieldTypes, record)
    decreases SizeEntries(record), 0, 0
  {
    if record != [] && record[0].0 in fieldTypes {
      assert record[0].1 < record[0];
      HandleAgrees(rt, f, cls, fieldTypes[record[0].0], record[0].1);
      HandleFieldsAgrees(rt, f, cls, fieldTypes, record[1..]);
    }
  }

  lemma {:induction false} HandleValuesAgrees(rt: Runtime, f: (Ty, Val) -> Option<bool>, cls: string,
                                              valueType: Ty, entries: seq<(string, Val)>)
    requires SameVerdicts(rt, f)
    ensures HandleValues(rt, cls, valueType, entries) == HandleValues(rt.(isInstance := f), cls, valueType, entries)
    decreases SizeEntries(entries), 0, 0
  {
    if entries != [] {
      assert entries[0].1 < entries[0];
      HandleAgrees(rt, f, cls, valueType, entries[0].1);
      HandleValuesAgrees(rt, f, cls, valueType, entries[1..]);
    }
  }

  lemma {:induction false} HandleListAgrees(rt: Runtime, f: (Ty, Val) -> Option<bool>, cls: string, elemType: Ty, xs: seq<Val>)
    requires SameVerdicts(rt, f)
    ensures HandleList(rt, cls, elemType, xs) == HandleList(rt.(isInstance := f), cls, elemType, xs)
    decreases SizeList(xs), 0, 0
  {
    if xs != [] {
      HandleAgrees(rt, f, cls, elemType, xs[0]);
      HandleListAgrees(rt, f, cls, elemType, xs[1..]);
    }
  }

  lemma {:induction false} HandleCharsAgrees(rt: Runtime, f: (Ty, Val) -> Option<bool>, cls: string, elemType: Ty, s: string)
    requires SameVerdicts(rt, f)
    ensures HandleChars(rt, cls, elemType, s) == HandleChars(rt.(isInstance := f), cls, elemType, s)
    decreases Size(VStr(s)), TySize(elemType), 2
  {
    if s != [] {
      HandleAgrees(rt, f, cls, elemType, VStr([s[0]]));
      HandleCharsAgrees(rt, f, cls, elemType, s[1..]);
    }
  }

  lemma {:induction false} HandleUnionAgrees(rt: Runtime, f: (Ty, Val) -> Option<bool>, cls: string, variants: seq<Ty>, v: Val)
    requires SameVerdicts(rt, f)
    ensures HandleUnion(rt, cls, variants, v) == HandleUnion(rt.(isInstance := f), cls, variants, v)
    decreases Size(v), TySizes(variants), 2
  {
    if variants != [] {
      HandleAgrees(rt, f, cls, variants[0], v);
      HandleUnionAgrees(rt, f, cls, variants[1..], v);
    }
  }

  // ---------------------------------------------------------------- logical types

  /** Rule 4: a registered `logicalType` tag yields exactly that tag's parser applied to the value. */
  lemma RegisteredLogicalTypeIsParsed(rt: Runtime, cls: string, tag: string, v: Val)
    requires Unmatched(rt, Logical(tag), v) && Truthy(v) && tag in LogicalTypeMap
    ensures Handle(rt, cls, Logical(tag), v) == ApplyParser(rt, LogicalTypeMap[tag].parser, v)
  {
  }

  /** An unregistered tag falls through every later rule and the conversion fails. */
  lemma UnregisteredLogicalTypeFails(rt: Runtime, cls: string, tag: string, v: Val)
    requires Unmatched(rt, Logical(tag), v) && Truthy(v) && tag !in LogicalTypeMap
    ensures Handle(rt, cls, Logical(tag), v).Failure?
  {
  }

  /** A time-millis integer becomes the time of day it denotes, or fails when datetime overflows. */
  lemma TimeMillisField(rt: Runtime, cls: string, ms: int)
    requires Unmatched(rt, Logical("time-millis"), VInt(ms)) && ms != 0
    ensures var r := Handle(rt, cls, Logical("time-millis"), VInt(ms));
            if InDatetimeRange(1000 * ms) then r == Success(VTime(ParseTimeMillis(ms))) else r.Failure?
  {
  }

  /** A time-micros integer becomes the time of day it denotes, or fails when datetime overflows. */
  lemma TimeMicrosField(rt: Runtime, cls: string, us: int)
    requires Unmatched(rt, Logical("time-micros"), VInt(us)) && us != 0
    ensures var r := Handle(rt, cls, Logical("time-micros"), VInt(us));
            if InDatetimeRange(us) then r == Success(VTime(ParseTimeMicros(us))) else r.Failure?
  {
  }

  /** A falsy value is never parsed: time-millis 0 comes back as the integer 0. */
  lemma ZeroTimeMillisStaysRaw(rt: Runtime, cls: string)
    ensures Handle(rt, cls, Logical("time-millis"), VInt(0)) == Success(VInt(0))
    ensures Handle(rt, cls, Logical("time-millis"), VInt(0)) != Success(VTime(ParseTimeMillis(0)))
  {
  }

  // ---------------------------------------------------------------- records

  /** Rule 5: a dataclass type converts a dict with `fromdict`; any other value fails. */
  lemma DataclassIsConverted(rt: Runtime, cls: string, name: string, v: Val)
    requires Unmatched(rt, Record(name), v) && Truthy(v)
    ensures Handle(rt, cls, Record(name), v) == if v.VMap? then FromDict(rt, name, v.entries) else Failure(ConversionFailed)
  {
  }

  /**
   * The dict comprehension of `fromdict`: it succeeds exactly when every key is a
   * declared field and every value converts under that field's type; the
   * keyword arguments are then the record's own keys, in order, with the
   * converted values.
   */
  lemma {:induction false} HandleFieldsSpec(rt: Runtime, cls: string, fieldTypes: map<string, Ty>, record: seq<(string, Val)>)
    ensures HandleFields(rt, cls, fieldTypes, record).Success?
            <==> forall i :: 0 <= i < |record| ==>
                   record[i].0 in fieldTypes && Handle(rt, cls, fieldTypes[record[i].0], record[i].1).Success?
    ensures HandleFields(rt, cls, fieldTypes, record).Success? ==>
              var kwargs := HandleFields(rt, cls, fieldTypes, record).value;
              |kwargs| == |record| &&
              forall i :: 0 <= i < |record| ==>
                kwargs[i].0 == record[i].0 && record[i].0 in fieldTypes &&
                Handle(rt, cls, fieldTypes[record[i].0], record[i].1) == Success(kwargs[i].1)
    decreases |record|
  {
    if record != [] {
      HandleFieldsSpec(rt, cls, fieldTypes, record[1..]);
      var r := HandleFields(rt, cls, fieldTypes, record);
      if forall i :: 0 <= i < |record| ==>
           record[i].0 in fieldTypes && Handle(rt, cls, fieldTypes[record[i].0], record[i].1).Success? {
        assert forall i :: 0 <= i < |record[1..]| ==> record[1..][i] == record[i + 1];
      }
      if r.Success? {
        var rest := HandleFields(rt, cls, fieldTypes, record[1..]);
        assert r.value == [(record[0].0, Handle(rt, cls, fieldTypes[record[0].0], record[0].1).value)] + rest.value;
        forall i | 0 < i < |record|
          ensures record[i].0 in fieldTypes && Handle(rt, cls, fieldTypes[record[i].0], record[i].1).Success?
        {
          assert record[i] == record[1..][i - 1];
        }
      }
    }
  }

  /**
   * `fromdict(cls, record)` calls `cls` once, with one keyword argument per key of
   * the record (declared fields the record lacks are left to the constructor),
   * each value converted under its field's declared type.
   */
  lemma FromDictSpec(rt: Runtime, cls: string, record: seq<(string, Val)>)
    requires cls in rt.records
    requires forall i :: 0 <= i < |record| ==>
               record[i].0 in rt.records[cls] && Handle(rt, cls, rt.records[cls][record[i].0], record[i].1).Success?
    ensures exists kwargs: seq<(string, Val)> ::
              && |kwargs| == |record|
              && (forall i :: 0 <= i < |record| ==>
                    kwargs[i].0 == record[i].0 &&
                    Handle(rt, cls, rt.records[cls][record[i].0], record[i].1) == Success(kwargs[i].1))
              && FromDict(rt, cls, record) == rt.construct(cls, kwargs)
  {
    HandleFieldsSpec(rt, cls, rt.records[cls], record);
    var kwargs := HandleFields(rt, cls, rt.records[cls], record).value;
    assert FromDict(rt, cls, record) == rt.construct(cls, kwargs);
  }

  /** A key that is not a declared field of `cls` makes `fromdict` fail (a KeyError). */
  lemma FromDictUnknownFieldFails(rt: Runtime, cls: string, record: seq<(string, Val)>, i: nat)
    requires cls in rt.records && i < |record| && record[i].0 !in rt.records[cls]
    ensures FromDict(rt, cls, record).Failure?
  {
    HandleFieldsSpec(rt, cls, rt.records[cls], record);
  }

  /** A field value that fails to convert makes `fromdict` fail: no partial instance is built. */
  lemma FromDictFieldFailureFails(rt: Runtime, cls: string, record: seq<(string, Val)>, i: nat)
    requires cls in rt.records && i < |record| && record[i].0 in rt.records[cls]
    requires Handle(rt, cls, rt.records[cls][record[i].0], record[i].1).Failure?
    ensures FromDict(rt, cls, record).Failure?
  {
    HandleFieldsSpec(rt, cls, rt.records[cls], record);
  }

  // ---------------------------------------------------------------- lists

  /** Element-wise conversion: same length, same order, element i converted under the element type. */
  ghost predicate ConvertedEach(rt: Runtime, cls: string, elemType: Ty, xs: seq<Val>, ys: seq<Val>) {
    |ys| == |xs| && forall i :: 0 <= i < |xs| ==> Handle(rt, cls, elemType, xs[i]) == Success(ys[i])
  }

  lemma {:induction false} HandleListSpec(rt: Runtime, cls: string, elemType: Ty, xs: seq<Val>)
    ensures HandleList(rt, cls, elemType, xs).Success?
            <==> forall i :: 0 <= i < |xs| ==> Handle(rt, cls, elemType, xs[i]).Success?
    ensures HandleList(rt, cls, elemType, xs).Success? ==>
              ConvertedEach(rt, cls, elemType, xs, HandleList(rt, cls, elemType, xs).value)
    decreases |xs|
  {
    if xs != [] {
      HandleListSpec(rt, cls, elemType, xs[1..]);
      if forall i :: 0 <= i < |xs| ==> Handle(rt, cls, elemType, xs[i]).Success? {
        assert forall i :: 0 <= i < |xs[1..]| ==> xs[1..][i] == xs[i + 1];
      }
      if HandleList(rt, cls, elemType, xs).Success? {
        forall i | 0 < i < |xs| ensures Handle(rt, cls, elemType, xs[i]).Success? {
          assert xs[i] == xs[1..][i - 1];
        }
      }
    }
  }

  /** The characters of a string, each as a one-character string. */
  function Chars(s: string): (cs: seq<Val>)
    ensures |cs| == |s| && forall i :: 0 <= i < |s| ==> cs[i] == VStr([s[i]])
  {
    if s == [] then [] else [VStr([s[0]])] + Chars(s[1..])
  }

  lemma {:induction false} HandleCharsIsHandleList(rt: Runtime, cls: string, elemType: Ty, s: string)
    ensures HandleChars(rt, cls, elemType, s) == HandleList(rt, cls, elemType, Chars(s))
    decreases |s|
  {
    if s != [] {
      HandleCharsIsHandleList(rt, cls, elemType, s[1..]);
      assert Chars(s)[0] == VStr([s[0]]) && Chars(s)[1..] == Chars(s[1..]);
    }
  }

  /**
   * Rule 7, `List[T]`: a list of the same length in the same order, element i
   * converted under T; it fails exactly when some element does. A string is
   * iterated character by character and a dict over its keys.
   */
  lemma ListIsConvertedElementwise(rt: Runtime, cls: string, elemType: Ty, v: Val)
    requires Unmatched(rt, ListOf([elemType]), v) && Truthy(v) && (v.VList? || v.VStr? || v.VMap?)
    ensures var xs := if v.VList? then v.items else if v.VStr? then Chars(v.s) else KeyVals(v.entries);
            var r := Handle(rt, cls, ListOf([elemType]), v);
            && (r.Success? <==> forall i :: 0 <= i < |xs| ==> Handle(rt, cls, elemType, xs[i]).Success?)
            && (r.Success? ==> r.value.VList? && ConvertedEach(rt, cls, elemType, xs, r.value.items))
  {
    var xs := if v.VList? then v.items else if v.VStr? then Chars(v.s) else KeyVals(v.entries);
    HandleListSpec(rt, cls, elemType, xs);
    if v.VStr? {
      HandleCharsIsHandleList(rt, cls, elemType, v.s);
    }
  }

  /** A `List` type with other than one type argument makes a non-empty value fail. */
  lemma ListArityMismatchFails(rt: Runtime, cls: string, args: seq<Ty>, v: Val)
    requires Unmatched(rt, ListOf(args), v) && Truthy(v) && |args| != 1
    ensures Handle(rt, cls, ListOf(args), v).Failure?
  {
  }

  /** Under `List[T]` a value that cannot be iterated (a number, an instance, ...) fails. */
  lemma ListOfNonIterableFails(rt: Runtime, cls: string, elemType: Ty, v: Val)
    requires Unmatched(rt, ListOf([elemType]), v) && Truthy(v) && !(v.VList? || v.VStr? || v.VMap?)
    ensures Handle(rt, cls, ListOf([elemType]), v).Failure?
  {
  }

  // ---------------------------------------------------------------- dicts

  lemma {:induction false} HandleValuesSpec(rt: Runtime, cls: string, valueType: Ty, es: seq<(string, Val)>)
    ensures HandleValues(rt, cls, valueType, es).Success?
            <==> forall i :: 0 <= i < |es| ==> Handle(rt, cls, valueType, es[i].1).Success?
    ensures HandleValues(rt, cls, valueType, es).Success? ==>
              var out := HandleValues(rt, cls, valueType, es).value;
              |out| == |es| &&
              forall i :: 0 <= i < |es| ==> out[i].0 == es[i].0 && Handle(rt, cls, valueType, es[i].1) == Success(out[i].1)
    decreases |es|
  {
    if es != [] {
      HandleValuesSpec(rt, cls, valueType, es[1..]);
      if forall i :: 0 <= i < |es| ==> Handle(rt, cls, valueType, es[i].1).Success? {
        assert forall i :: 0 <= i < |es[1..]| ==> es[1..][i] == es[i + 1];
      }
      if HandleValues(rt, cls, valueType, es).Success? {
        forall i | 0 < i < |es| ensures Handle(rt, cls, valueType, es[i].1).Success? {
          assert es[i] == es[1..][i - 1];
        }
      }
    }
  }

  /**
   * Rule 8, plain `Dict[K, V]`: the same keys in the same order, unconverted, each
   * value converted under V; it fails exactly when some value does.
   */
  lemma DictIsConvertedValuewise(rt: Runtime, cls: string, keyType: Ty, valueType: Ty, es: seq<(string, Val)>)
    requires Unmatched(rt, DictOf([keyType, valueType]), VMap(es)) && es != []
    requires !keyType.FwdRef? && !valueType.FwdRef?
    ensures var r := Handle(rt, cls, DictOf([keyType, valueType]), VMap(es));
            && (r.Success? <==> forall i :: 0 <= i < |es| ==> Handle(rt, cls, valueType, es[i].1).Success?)
            && (r.Success? ==>
                  r.value.VMap? && |r.value.entries| == |es| &&
                  forall i :: 0 <= i < |es| ==>
                    r.value.entries[i].0 == es[i].0 && Handle(rt, cls, valueType, es[i].1) == Success(r.value.entries[i].1))
  {
    assert !HasForwardRef([keyType, valueType]);
    HandleValuesSpec(rt, cls, valueType, es);
  }

  /**
   * Rule 8, a `Dict` with a ForwardRef argument: the dict itself is the field set of
   * one instance of the enclosing class `cls`, each entry converted under the type
   * `cls` declares for that key.
   */
  lemma SelfReferentialDictIsFromDict(rt: Runtime, cls: string, args: seq<Ty>, es: seq<(string, Val)>)
    requires Unmatched(rt, DictOf(args), VMap(es)) && es != []
    requires |args| == 2 && (args[0].FwdRef? || args[1].FwdRef?)
    ensures Handle(rt, cls, DictOf(args), VMap(es)) == FromDict(rt, cls, es)
  {
    assert args[0].FwdRef? ==> HasForwardRef(args) by { assert 0 < |args|; }
    assert args[1].FwdRef? ==> HasForwardRef(args) by { assert 1 < |args|; }
  }

  /**
   * In the same branch, a key that is not an annotation of `cls` (a KeyError), or an
   * entry that fails to convert, makes the whole conversion fail.
   */
  lemma SelfReferentialDictFailsOnBadEntry(rt: Runtime, cls: string, args: seq<Ty>, es: seq<(string, Val)>, i: nat)
    requires Unmatched(rt, DictOf(args), VMap(es)) && es != []
    requires |args| == 2 && (args[0].FwdRef? || args[1].FwdRef?)
    requires cls in rt.records && i < |es|
    requires es[i].0 !in rt.records[cls] || Handle(rt, cls, rt.records[cls][es[i].0], es[i].1).Failure?
    ensures Handle(rt, cls, DictOf(args), VMap(es)).Failure?
  {
    SelfReferentialDictIsFromDict(rt, cls, args, es);
    if es[i].0 !in rt.records[cls] {
      FromDictUnknownFieldFails(rt, cls, es, i);
    } else {
      FromDictFieldFailureFails(rt, cls, es, i);
    }
  }

  /** When every entry is a field that converts, `cls` is called once with the converted entries. */
  lemma SelfReferentialDictBuildsEnclosingClass(rt: Runtime, cls: string, args: seq<Ty>, es: seq<(string, Val)>)
    requires Unmatched(rt, DictOf(args), VMap(es)) && es != []
    requires |args| == 2 && (args[0].FwdRef? || args[1].FwdRef?)
    requires cls in rt.records
    requires forall i :: 0 <= i < |es| ==>
               es[i].0 in rt.records[cls] && Handle(rt, cls, rt.records[cls][es[i].0], es[i].1).Success?
    ensures exists kwargs: seq<(string, Val)> ::
              && |kwargs| == |es|
              && (forall i :: 0 <= i < |es| ==>
                    kwargs[i].0 == es[i].0 &&
                    Handle(rt, cls, rt.records[cls][es[i].0], es[i].1) == Success(kwargs[i].1))
              && Handle(rt, cls, DictOf(args), VMap(es)) == rt.construct(cls, kwargs)
  {
    SelfReferentialDictIsFromDict(rt, cls, args, es);
    HandleFieldsSpec(rt, cls, rt.records[cls], es);
    var kwargs := HandleFields(rt, cls, rt.records[cls], es).value;
    assert FromDict(rt, cls, es) == rt.construct(cls, kwargs);
  }

  /** A `Dict` type with other than two type arguments, or a non-dict value, fails. */
  lemma DictShapeMismatchFails(rt: Runtime, cls: string, args: seq<Ty>, v: Val)
    requires Unmatched(rt, DictOf(args), v) && Truthy(v) && (|args| != 2 || !v.VMap?)
    ensures Handle(rt, cls, DictOf(args), v).Failure?
  {
  }

  // ---------------------------------------------------------------- unions

  /**
   * Rule 9: a Union resolves to the first variant, in declared order, whose
   * conversion succeeds; failures of earlier variants are discarded.
   */
  lemma {:induction false} UnionTakesFirstSuccess(rt: Runtime, cls: string, variants: seq<Ty>, v: Val)
    ensures HandleUnion(rt, cls, variants, v).Success? ==>
              exists i :: 0 <= i < |variants| &&
                Handle(rt, cls, variants[i], v) == HandleUnion(rt, cls, variants, v) &&
                forall j :: 0 <= j < i ==> Handle(rt, cls, variants[j], v).Failure?
    ensures HandleUnion(rt, cls, variants, v).Failure? <==>
              forall i :: 0 <= i < |variants| ==> Handle(rt, cls, variants[i], v).Failure?
    decreases |variants|
  {
    if variants != [] {
      UnionTakesFirstSuccess(rt, cls, variants[1..], v);
      var r := HandleUnion(rt, cls, variants, v);
      if Handle(rt, cls, variants[0], v).Failure? {
        assert r == HandleUnion(rt, cls, variants[1..], v);
        if r.Success? {
          var k :| 0 <= k < |variants[1..]| &&
                   Handle(rt, cls, variants[1..][k], v) == r &&
                   forall j :: 0 <= j < k ==> Handle(rt, cls, variants[1..][j], v).Failure?;
          assert variants[k + 1] == variants[1..][k];
          forall j | 0 <= j < k + 1 ensures Handle(rt, cls, variants[j], v).Failure? {
            if j > 0 { assert variants[j] == variants[1..][j - 1]; }
          }
        }
        if forall i :: 0 <= i < |variants[1..]| ==> Handle(rt, cls, variants[1..][i], v).Failure? {
          forall i | 0 <= i < |variants| ensures Handle(rt, cls, variants[i], v).Failure? {
            if i > 0 { assert variants[i] == variants[1..][i - 1]; }
          }
        }
      }
    }
  }

  /** A declared Union reaches the trial loop once the short-circuits have not applied. */
  lemma UnionIsTried(rt: Runtime, cls: string, variants: seq<Ty>, v: Val)
    requires Unmatched(rt, UnionOf(variants), v) && Truthy(v)
    ensures Handle(rt, cls, UnionOf(variants), v) == HandleUnion(rt, cls, variants, v)
    ensures Handle(rt, cls, UnionOf(variants), v).Failure? <==>
              forall i :: 0 <= i < |variants| ==> Handle(rt, cls, variants[i], v).Failure?
  {
    UnionTakesFirstSuccess(rt, cls, variants, v);
  }

  // ---------------------------------------------------------------- giving up

  /** Rule 10: a bare ForwardRef or any other type matched by no rule fails. */
  lemma UnmatchedTypeFails(rt: Runtime, cls: string, t: Ty, v: Val)
    requires Unmatched(rt, t, v) && Truthy(v) && (t.FwdRef? || t.Other?)
    ensures Handle(rt, cls, t, v) == Failure(ConversionFailed)
  {
  }
}
