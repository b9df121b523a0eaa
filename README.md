# fastavro-gen `fromdict`: a Dafny model

fastavro-gen generates Python dataclasses from Avro schemas and ships a small
converter, `fromdict(cls, record)`, that turns a decoded Avro record (a plain
`dict`) into an instance of the generated class. For each field it looks at
the declared type of the field. It then passes the value through, parses it
with the logical-type registry, or recurses into nested records, lists,
dicts and unions. The order in which these rules are tried decides the
result.

This project models that converter (`fastavro_gen/from_dict.py`) and its
logical-type registry (`fastavro_gen/logical_types.py`). It proves what each
rule yields, in the source's order, and what the two time-of-day parsers
compute.

- `wrappers.dfy`, module `Wrappers`: `Option` and `Result`.
- `logical_types.dfy`, module `LogicalTypes`: `LOGICAL_TYPE_MAP` as a `map<string, Entry>`. Each entry holds the type name, the import module and a `ParserKind`. It also holds `_parse_time_millis` and `_parse_time_micros`, built on a model of `datetime.min + timedelta(...)` whose `.time()` keeps the time of day.
- `from_dict.dfy`, module `Converter`: declared types (`Ty`), Python objects (`Val`), and the `Runtime` that stands in for reflection. `FromDict`, `Handle` and its helpers use the same rules in the same order as `fromdict` and `_handle_type`.
- `from_dict_properties.dfy`, module `ConverterProperties`: one lemma per rule, plus the container, union and record characterisations.
- `from_dict_examples.dfy`, module `ConverterExamples`: concrete conversions over three small dataclasses. Their `isinstance` answers as CPython 3.8 and 3.9 do for the types used: exact answers for classes and for bare `List` and `Dict`, a TypeError for subscripted generics, `Union` and `Literal`.

Python reflection is replaced by data. `Runtime.records` gives each dataclass's field types; it stands for both `fields(cls)` and `cls.__annotations__`. `Runtime.isInstance` answers `isinstance(val, type)`, and `None` means the call raised. `Runtime.construct` is the call `cls(**kwargs)`, and `Runtime.libraryParse` covers the registry parsers whose code is not part of this model. A dict is an ordered `seq<(string, Val)>`, as Python dicts keep insertion order. Every exception is the single error `ConversionFailed`.

Termination uses a lexicographic measure: the size of the value, then the size of the type, then a rank. A Union retries the same value under a smaller type. Iterating a string retries a one-character string under the element type. Every other descent is to a strictly smaller value.

Two behaviours of the code worth noting:

- Under `Union[int, Nested]` a mapping such as `{"a": 1}` does not become a `Nested`. The `int` variant is a primitive, and from_dict.py:37-38 returns the raw mapping, so that variant never fails (`UnionIntFirstKeepsRawMapping`).
- The forward-reference `Dict` case reads the dict's keys as field names of the enclosing class. It does not read them as keys of a dict of instances, so a key that is not a field is a KeyError at from_dict.py:69 (`SelfReferentialDictFailsOnBadEntry`, `SelfReferentialUnknownKeyFails`).

## Model

| member | source | states |
|---|---|---|
| `Converter.FromDict` | fastavro_gen/from_dict.py:13-16 | `fromdict`; characterised by `FromDictSpec`, `FromDictUnknownFieldFails` and `FromDictFieldFailureFails` |
| `Converter.HandleFields` | fastavro_gen/from_dict.py:8-16 | the `fromdict` comprehension over `fields_dict(cls)`; characterised by `HandleFieldsSpec` |
| `Converter.Handle` | fastavro_gen/from_dict.py:20-32 | `_handle_type`'s None and `isinstance` short-circuits; characterised by `NoneUnderEveryType`, `InstancePassesThrough`, `IsInstanceRaiseIsSwallowed` and `HandleAgrees` |
| `Converter.Dispatch` | fastavro_gen/from_dict.py:34-87 | the remaining rules in source order; characterised rule by rule by `FalsyPassesThrough`, `PrimitivePassesThrough`, `RegisteredLogicalTypeIsParsed`, `DataclassIsConverted`, `LiteralIsNotValidated`, `ListIsConvertedElementwise`, `DictIsConvertedValuewise`, `SelfReferentialDictIsFromDict`, `UnionIsTried` and `UnmatchedTypeFails` |
| `Converter.HandleList` | fastavro_gen/from_dict.py:61 | the list comprehension; characterised by `HandleListSpec` |
| `Converter.HandleChars` | fastavro_gen/from_dict.py:61 | the same comprehension over a string; characterised by `HandleCharsIsHandleList` |
| `Converter.HandleValues` | fastavro_gen/from_dict.py:73-76 | the plain dict comprehension; characterised by `HandleValuesSpec` |
| `Converter.HandleUnion` | fastavro_gen/from_dict.py:79-84 | the Union trial loop; characterised by `UnionTakesFirstSuccess` |
| `Converter.ApplyParser` | fastavro_gen/from_dict.py:41-44 | `parser(val)` for a registry entry; characterised by `TimeMillisField`, `TimeMicrosField` and `RegisteredLogicalTypeIsParsed` |
| `Converter.Truthy` | fastavro_gen/from_dict.py:35 | Python's `not val`; used by `FalsyPassesThrough` and `ZeroTimeMillisStaysRaw` |
| `Converter.IsPrimitive` | fastavro_gen/from_dict.py:37 | `_type in PRIMITIVES`, the set of line 5; used by `PrimitivePassesThrough` |
| `Converter.HasRegisteredLogicalType` | fastavro_gen/from_dict.py:41-42 | the `logicalType` lookup; used by `RegisteredLogicalTypeIsParsed` and `UnregisteredLogicalTypeFails` |
| `Converter.HasForwardRef` | fastavro_gen/from_dict.py:67 | `any(isinstance(a, ForwardRef) for a in args)`; used by `SelfReferentialDictIsFromDict` and `DictIsConvertedValuewise` |
| `LogicalTypes.LogicalTypeMap` | fastavro_gen/logical_types.py:29-71 | `LOGICAL_TYPE_MAP`; characterised by `RegistryTags`, `RegistryMetadata` and `RegistryParsersDistinct` |
| `ConverterProperties.HandleFieldsSpec` | fastavro_gen/from_dict.py:8-16 | the `fromdict` comprehension succeeds iff every key is a declared field and every value converts under its field type; the kwargs are the record's own keys, in order, with the converted values |
| `ConverterProperties.FromDictSpec` | fastavro_gen/from_dict.py:13-16 | `fromdict` calls `cls` once, with exactly one keyword argument per record key, each converted under `fields(cls)`; absent fields are left to the constructor |
| `ConverterProperties.FromDictUnknownFieldFails` | fastavro_gen/from_dict.py:15-16 | a key that is not a declared field makes `fromdict` fail (KeyError) |
| `ConverterProperties.FromDictFieldFailureFails` | fastavro_gen/from_dict.py:16 | a failing field conversion makes `fromdict` fail; no partial instance |
| `ConverterProperties.NoneUnderEveryType` | fastavro_gen/from_dict.py:22-24 | `None` converts to `None` under every declared type |
| `ConverterProperties.InstancePassesThrough` | fastavro_gen/from_dict.py:26-29 | a value for which `isinstance` is True is returned unchanged |
| `ConverterProperties.IsInstanceRaiseIsSwallowed` | fastavro_gen/from_dict.py:27-32 | an `isinstance` that raises gives the same result as one that answers False, at every depth |
| `ConverterProperties.HandleAgrees` | fastavro_gen/from_dict.py:20-87 | the result depends on `isinstance` only through where it answers True (mutual induction over all rules) |
| `ConverterProperties.FalsyPassesThrough` | fastavro_gen/from_dict.py:34-36 | any falsy value (0, False, 0.0, "", [], {}) is returned unchanged under every type, without recursion |
| `ConverterProperties.ZeroTimeMillisStaysRaw` | fastavro_gen/from_dict.py:34-44 | time-millis 0 comes back as the integer 0, never parsed to midnight |
| `ConverterProperties.PrimitivePassesThrough` | fastavro_gen/from_dict.py:37-38 | under str, int, float or bool (PRIMITIVES, line 5) every value is returned unchanged, with no coercion |
| `ConverterProperties.RegisteredLogicalTypeIsParsed` | fastavro_gen/from_dict.py:41-44 | a registered `logicalType` tag yields exactly that tag's parser applied to the value |
| `ConverterProperties.UnregisteredLogicalTypeFails` | fastavro_gen/from_dict.py:41-87 | an unregistered tag falls through every later rule and fails |
| `ConverterProperties.TimeMillisField` | fastavro_gen/from_dict.py:41-44 | a non-zero time-millis int becomes `_parse_time_millis` of it, or fails when `datetime` overflows |
| `ConverterProperties.TimeMicrosField` | fastavro_gen/from_dict.py:41-44 | a non-zero time-micros int becomes `_parse_time_micros` of it, or fails when `datetime` overflows |
| `ConverterProperties.DataclassIsConverted` | fastavro_gen/from_dict.py:47-48 | a dataclass type converts a dict with `fromdict` of that class; any other value fails |
| `ConverterProperties.LiteralIsNotValidated` | fastavro_gen/from_dict.py:55-56 | `Literal[...]` returns the raw value whether or not it is one of the literal's values |
| `ConverterProperties.HandleListSpec` | fastavro_gen/from_dict.py:61 | the list comprehension succeeds iff every element converts, and then yields the converted elements, same length and order |
| `ConverterProperties.HandleCharsIsHandleList` | fastavro_gen/from_dict.py:61 | iterating a string is the list comprehension over its one-character strings |
| `ConverterProperties.ListIsConvertedElementwise` | fastavro_gen/from_dict.py:59-61 | `List[T]` gives a list of the same length and order, element i converted under T; strings iterate characters, dicts their keys; it fails iff some element fails |
| `ConverterProperties.ListArityMismatchFails` | fastavro_gen/from_dict.py:60 | a `List` without exactly one type argument fails (`(subtype,) = args` raises) |
| `ConverterProperties.ListOfNonIterableFails` | fastavro_gen/from_dict.py:61 | under `List[T]` a non-iterable value fails |
| `ConverterProperties.HandleValuesSpec` | fastavro_gen/from_dict.py:73-76 | the dict comprehension keeps the keys in order, unconverted, and converts each value under V; it fails iff some value fails |
| `ConverterProperties.DictIsConvertedValuewise` | fastavro_gen/from_dict.py:64-76 | a plain `Dict[K, V]` keeps exactly the same keys and converts each value under V |
| `ConverterProperties.SelfReferentialDictBuildsEnclosingClass` | fastavro_gen/from_dict.py:66-71 | a `Dict` with a ForwardRef argument builds one instance of the enclosing class from the dict's entries, each converted under that class's annotation for its key |
| `ConverterProperties.SelfReferentialDictIsFromDict` | fastavro_gen/from_dict.py:66-71 | a `Dict` with a ForwardRef argument converts a non-empty dict exactly as `fromdict` of the enclosing class would, including its failures |
| `ConverterProperties.SelfReferentialDictFailsOnBadEntry` | fastavro_gen/from_dict.py:68-71 | in that branch, a key that is not an annotation of the enclosing class (KeyError) or an entry that fails to convert makes the conversion fail |
| `ConverterProperties.DictShapeMismatchFails` | fastavro_gen/from_dict.py:65-76 | a `Dict` without exactly two type arguments, or a value without `.items()`, fails |
| `ConverterProperties.UnionTakesFirstSuccess` | fastavro_gen/from_dict.py:79-84 | a Union yields the first variant, in declared order, whose conversion succeeds, discarding earlier failures; it fails iff every variant fails |
| `ConverterProperties.UnionIsTried` | fastavro_gen/from_dict.py:79-87 | a declared Union reaches the trial loop, and the result is "Failed parsing value" iff all variants fail |
| `ConverterProperties.UnmatchedTypeFails` | fastavro_gen/from_dict.py:86-87 | a bare ForwardRef or a type no rule matches gives the "Failed parsing value" error |
| `LogicalTypes.RegistryTags` | fastavro_gen/logical_types.py:29-71 | the registry's tags are exactly the eight Avro logical types |
| `LogicalTypes.RegistryMetadata` | fastavro_gen/logical_types.py:31-70 | typename is date / time / datetime / Decimal by tag; the module is "datetime" except "decimal" for decimal |
| `LogicalTypes.RegistryParsersDistinct` | fastavro_gen/logical_types.py:29-71 | each tag has its own parser |
| `LogicalTypes.DatetimeMinPlus` | fastavro_gen/logical_types.py:6 | `datetime.min + timedelta` is whole days plus a valid time of day that add up to the offset |
| `LogicalTypes.ParseTimeMillis` | fastavro_gen/logical_types.py:4-6 | a valid time (hour < 24, minute < 60, second < 60, microsecond < 10^6) with h·3600000 + m·60000 + s·1000 + us/1000 = ms mod 86400000 and a whole number of milliseconds |
| `LogicalTypes.ParseTimeMicros` | fastavro_gen/logical_types.py:8-10 | a valid time with h·3.6e9 + m·6e7 + s·1e6 + us = us mod 86400000000 |
| `LogicalTypes.TimeOfDayInjective` | fastavro_gen/logical_types.py:4-10 | a valid time of day is determined by its offset from midnight |
| `LogicalTypes.TimeMicrosRoundTrip` | fastavro_gen/logical_types.py:8-10 | parsing the offset of a valid time of day gives that time back |
| `LogicalTypes.TimeMicrosModuloDay` | fastavro_gen/logical_types.py:10 | `_parse_time_micros` depends only on the offset modulo one day (`.time()` drops the date) |
| `LogicalTypes.TimeMillisModuloDay` | fastavro_gen/logical_types.py:6 | `_parse_time_millis` depends only on the offset modulo one day |
| `LogicalTypes.TimeMillisIsTimeMicros` | fastavro_gen/logical_types.py:4-10 | `_parse_time_millis(ms) == _parse_time_micros(1000 * ms)` |
| `LogicalTypes.TimeMillisExample` | fastavro_gen/logical_types.py:4-6 | 3661000 ms is 01:01:01.000 |
| `ConverterExamples.StringUnderIntIsNotCoerced` | fastavro_gen/from_dict.py:37-38 | the string "5" under `int` stays the string "5" |
| `ConverterExamples.TimeMillisFieldExample` | fastavro_gen/from_dict.py:41-44 | a time-millis field holding 3661000 converts to 01:01:01 |
| `ConverterExamples.ZeroTimeMillisExample` | fastavro_gen/from_dict.py:34-36 | a time-millis field holding 0 stays the integer 0 |
| `ConverterExamples.InnerFromDict` | fastavro_gen/from_dict.py:13-16 | `{"a": n}` converts to `Inner(a=n)` |
| `ConverterExamples.NestedListExample` | fastavro_gen/from_dict.py:47-61 | a list of two nested mappings becomes two nested instances, order kept |
| `ConverterExamples.UnionIntFirstKeepsRawMapping` | fastavro_gen/from_dict.py:37-38 | under `Union[int, Inner]` the mapping `{"a": 1}` is returned raw by the `int` variant |
| `ConverterExamples.UnionRecordFirstBuildsRecord` | fastavro_gen/from_dict.py:79-84 | under `Union[Inner, int]` the same mapping becomes an `Inner` |
| `ConverterExamples.SelfReferentialExample` | fastavro_gen/from_dict.py:66-71 | a self-referential dict field becomes one nested instance of the enclosing class |
| `ConverterExamples.SelfReferentialUnknownKeyFails` | fastavro_gen/from_dict.py:69 | with a forward reference, a dict key that is not a field of the enclosing class is a KeyError |
| `ConverterExamples.StringUnderListIsSplit` | fastavro_gen/from_dict.py:61 | the string "ab" under `List[str]` becomes `["a", "b"]` |

## Left out

- Python reflection (`get_origin`, `get_args`, `is_dataclass`, `fields`, `__annotations__`) is replaced by the closed `Ty` datatype and `Runtime.records`. CPython's `isinstance` rules for generics are not reproduced. `isinstance` is a parameter of the runtime.
- `fields(cls)` and `cls.__annotations__` are one map. The model does not capture inherited fields, which `fields` lists and `__annotations__` does not.
- Only a `Logical(tag)` type carries a `logicalType` attribute. A dataclass or generic carrying one is not modelled.
- Calling a dataclass (defaults, missing required fields, `__post_init__`) is the abstract `Runtime.construct`. It receives the keyword arguments built from the record.
- `date.fromisoformat`, `Decimal` and the four timestamp parsers use library code, floating-point division, `utcfromtimestamp`/`fromtimestamp` and tzinfo. They are the abstract `Runtime.libraryParse`, named from the table by their `ParserKind`.
- ApplyParser: a float passed to a time parser is also left to `Runtime.libraryParse`, because `timedelta` rounds fractional floats.
- Negative or out-of-range offsets to the time parsers raise OverflowError in `datetime.min + timedelta(...)`. The parsers require 0 <= offset (µs) < 3652059 days, and the converter returns `ConversionFailed` outside that range.
- Exception types and the message text of "Failed parsing value" collapse to one error, `ConversionFailed`.
- Floats, bytes, dates, datetimes and Decimals are opaque values. Only their truth value is modelled, and iterating bytes under a `List` type is not modelled (they fail as non-iterable).
- A dict's keys are strings, the only kind Avro maps and keyword arguments have, and `VMap` does not rule out a repeated key, which a Python dict cannot hold. Non-string keys under `Dict[K, V]` are not modelled.
