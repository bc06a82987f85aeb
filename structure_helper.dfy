/** `PVAStructureHelper`: the entry point that turns a structure into a
    typed value. It resolves a requested sub-field, strips the `epics:nt/`
    namespace from the structure's type name, routes the five Normative
    Types to their decoders, falls back on the shape of `value`, and decodes
    NTTable itself. The scalar, enum, array and image decoders it hands off
    to are recorded by which one was chosen and what it was given. */
module PVAStructureHelper {
  import opened Wrappers
  import opened PvaData
  import opened VTypes

  // ---------------------------------------------------------------- results

  /** `Decoders.decodeNumber` or `Decoders.decodeString`. */
  datatype ScalarDecoder = DecodeNumber | DecodeString

  /** `Decoders.decodeDoubleArray` ... `Decoders.decodeStringArray`. */
  datatype ArrayDecoder =
    DoubleArray | FloatArray | LongArray | IntArray | ShortArray | ByteArray | StringArray

  /** Column classes of a VTable: Double.TYPE, Float.TYPE, Integer.TYPE, String.class. */
  datatype ColumnType = DoubleType | FloatType | IntegerType | StringType

  /** Column payloads: ArrayDouble, ArrayFloat, ArrayInteger, ArrayUInteger, List<String>. */
  datatype ColumnData =
    | DoubleColumn(doubles: seq<int>)
    | FloatColumn(floats: seq<int>)
    | IntColumn(ints: seq<int>)
    | UIntColumn(uints: seq<int>)
    | StringColumn(strs: seq<string>)

  datatype Column = Column(ctype: ColumnType, data: ColumnData)

  /** `VTable.of(types, names, values)`. */
  datatype VTable = VTable(types: seq<ColumnType>, names: seq<string>, values: seq<ColumnData>)

  /** The decoded value. `StringValue` is `VString.of(struct.format(), alarm,
      Time.now())`: the structure stands for its text dump. */
  datatype VType =
    | ScalarValue(scalarDecoder: ScalarDecoder, meta: Structure, payload: Field)
    | ArrayValue(arrayDecoder: ArrayDecoder, meta: Structure, payload: Field)
    | EnumValue(source: Structure)
    | ImageValue(source: Structure)
    | TableValue(table: VTable)
    | StringValue(dump: Structure, alarm: Alarm)

  const UnknownType: Alarm := Alarm(AlarmSeverity.UNDEFINED, CLIENT, "Unknown type")
  const UnknownArrayType: Alarm := Alarm(AlarmSeverity.UNDEFINED, CLIENT, "Unknown array type")

  // ---------------------------------------------------------------- type tags

  const NTPrefix: string := "epics:nt/"

  predicate HasPrefix(t: string) {
    |NTPrefix| <= |t| && t[..|NTPrefix|] == NTPrefix
  }

  /** The structure name with a leading `epics:nt/` removed. */
  function NormalizeTag(typeName: string): (tag: string)
    ensures HasPrefix(typeName) ==> NTPrefix + tag == typeName
    ensures !HasPrefix(typeName) ==> tag == typeName
  {
    if HasPrefix(typeName) then typeName[9..] else typeName
  }

  datatype NormativeType = NTScalar | NTEnum | NTScalarArray | NTNDArray | NTTable

  /** The one tag, version included, that each Normative Type answers to. */
  function TagName(k: NormativeType): string {
    match k
    case NTScalar => "NTScalar:1.0"
    case NTEnum => "NTEnum:1.0"
    case NTScalarArray => "NTScalarArray:1.0"
    case NTNDArray => "NTNDArray:1.0"
    case NTTable => "NTTable:1.0"
  }

  /** Exact match of a stripped tag. */
  function TagOf(tag: string): (r: Option<NormativeType>)
    ensures r.Some? ==> TagName(r.value) == tag
    ensures forall k: NormativeType :: tag == TagName(k) ==> r == Some(k)
  {
    if tag == "NTScalar:1.0" then Some(NTScalar)
    else if tag == "NTEnum:1.0" then Some(NTEnum)
    else if tag == "NTScalarArray:1.0" then Some(NTScalarArray)
    else if tag == "NTNDArray:1.0" then Some(NTNDArray)
    else if tag == "NTTable:1.0" then Some(NTTable)
    else None
  }

  function NormativeTypeOf(typeName: string): Option<NormativeType> {
    TagOf(NormalizeTag(typeName))
  }

  /** A type name matches with or without the namespace, and only as the
      exact versioned tag. */
  lemma TagMatching(k: NormativeType, t: string)
    ensures NormativeTypeOf(NTPrefix + TagName(k)) == Some(k)
    ensures NormativeTypeOf(TagName(k)) == Some(k)
    ensures NormativeTypeOf(NTPrefix + t) == TagOf(t)
    ensures NormativeTypeOf(t) == Some(k) <==> t == TagName(k) || t == NTPrefix + TagName(k)
  {
    assert (NTPrefix + t)[..|NTPrefix|] == NTPrefix;
    assert (NTPrefix + t)[9..] == t;
    var kt := NTPrefix + TagName(k);
    assert kt[..|NTPrefix|] == NTPrefix && kt[9..] == TagName(k);
    assert !HasPrefix(TagName(k)) by {
      assert TagName(k)[0] == 'N';
    }
    if NormativeTypeOf(t) == Some(k) && HasPrefix(t) {
      assert t == NTPrefix + t[9..];
    }
  }

  // ---------------------------------------------------------------- scalar

  predicate IsScalarField(f: Option<Field>) {
    f.Some? && (f.value.Num? || f.value.Str?)
  }

  /** `decodeScalar`: a number or string `value` goes to `decodeNumber` or
      `decodeString` with the structure as metadata; anything else throws. */
  function DecodeScalar(s: Structure): (r: Result<VType, DecodeError>)
    ensures r.Err? <==> !IsScalarField(Get(s, "value"))
    ensures r.Err? ==> r.error == NotScalar(s)
    ensures r.Ok? ==> r.value.ScalarValue? && r.value.meta == s
                      && Get(s, "value") == Some(r.value.payload)
                      && (r.value.scalarDecoder == DecodeNumber <==> r.value.payload.Num?)
  {
    match Get(s, "value")
    case Some(Num(n)) => Ok(ScalarValue(DecodeNumber, s, Num(n)))
    case Some(Str(v)) => Ok(ScalarValue(DecodeString, s, Str(v)))
    case _ => Err(NotScalar(s))
  }

  // ---------------------------------------------------------------- array

  /** The array decoder for an array field, by element kind. */
  function ArrayDecoderOf(f: Field): (d: Option<ArrayDecoder>)
    ensures d.Some? <==> f.NumArray? || f.StrArray?
  {
    match f
    case NumArray(Double, _, _) => Some(DoubleArray)
    case NumArray(Float, _, _) => Some(FloatArray)
    case NumArray(Long, _, _) => Some(LongArray)
    case NumArray(Int, _, _) => Some(IntArray)
    case NumArray(Short, _, _) => Some(ShortArray)
    case NumArray(Byte, _, _) => Some(ByteArray)
    case StrArray(_) => Some(StringArray)
    case _ => None
  }

  /** Each element kind has its own decoder: two arrays share a decoder
      exactly when their elements are of the same kind. */
  lemma ArrayDecodersDistinct(f: Field, g: Field)
    requires ArrayDecoderOf(f).Some? && ArrayDecoderOf(g).Some?
    ensures ArrayDecoderOf(f) == ArrayDecoderOf(g) <==>
      (f.StrArray? && g.StrArray?) || (f.NumArray? && g.NumArray? && f.kind == g.kind)
  {
  }

  /** `decodeNTArray`: never throws; a `value` that is not a number or
      string array gives an "Unknown array type" string value. */
  function DecodeNTArray(s: Structure): (r: VType)
    ensures r.ArrayValue? || r.StringValue?
    ensures r.StringValue? <==> !(Get(s, "value").Some? && ArrayDecoderOf(Get(s, "value").value).Some?)
    ensures r.StringValue? ==> r == StringValue(s, UnknownArrayType)
    ensures r.ArrayValue? ==> r.meta == s && Get(s, "value") == Some(r.payload)
                              && ArrayDecoderOf(r.payload) == Some(r.arrayDecoder)
  {
    var field := Get(s, "value");
    if field.Some? && ArrayDecoderOf(field.value).Some? then
      ArrayValue(ArrayDecoderOf(field.value).value, s, field.value)
    else
      StringValue(s, UnknownArrayType)
  }

  // ---------------------------------------------------------------- table

  /** The column a field of the table's `value` structure contributes:
      double, float, (un)signed int and string arrays; nothing otherwise. */
  function ColumnOf(f: Field): Option<Column> {
    match f
    case NumArray(Double, _, xs) => Some(Column(DoubleType, DoubleColumn(xs)))
    case NumArray(Float, _, xs) => Some(Column(FloatType, FloatColumn(xs)))
    case NumArray(Int, unsigned, xs) =>
      Some(Column(IntegerType, if unsigned then UIntColumn(xs) else IntColumn(xs)))
    case StrArray(xs) => Some(Column(StringType, StringColumn(xs)))
    case _ => None
  }

  /** An int column is typed Integer.TYPE either way and carries an
      unsigned array exactly when its unsigned flag is set. */
  lemma IntColumns(unsigned: bool, xs: seq<int>)
    ensures ColumnOf(NumArray(Int, unsigned, xs)).Some?
    ensures ColumnOf(NumArray(Int, unsigned, xs)).value.ctype == IntegerType
    ensures ColumnOf(NumArray(Int, unsigned, xs)).value.data ==
      if unsigned then UIntColumn(xs) else IntColumn(xs)
  {
  }

  function ColumnList(m: Member): seq<Column> {
    match ColumnOf(m.field)
    case Some(c) => [c]
    case None => []
  }

  /** The supported columns, in declaration order. */
  function Columns(ms: seq<Member>): (cs: seq<Column>)
    ensures |cs| <= |ms|
  {
    if ms == [] then [] else ColumnList(ms[0]) + Columns(ms[1..])
  }

  /** Decoding columns distributes over concatenation. */
  lemma {:induction false} ColumnsAppend(a: seq<Member>, b: seq<Member>)
    ensures Columns(a + b) == Columns(a) + Columns(b)
  {
    if a == [] {
      assert a + b == b;
    } else {
      assert (a + b)[0] == a[0];
      assert (a + b)[1..] == a[1..] + b;
      ColumnsAppend(a[1..], b);
      calc {
        Columns(a + b);
        ColumnList(a[0]) + Columns(a[1..] + b);
        ColumnList(a[0]) + (Columns(a[1..]) + Columns(b));
        (ColumnList(a[0]) + Columns(a[1..])) + Columns(b);
      }
    }
  }

  /** A column of an unsupported kind is skipped and does not disturb the
      columns around it. */
  lemma UnsupportedColumnSkipped(a: seq<Member>, m: Member, b: seq<Member>)
    requires ColumnOf(m.field).None?
    ensures Columns(a + [m] + b) == Columns(a) + Columns(b)
  {
    ColumnsAppend(a + [m], b);
    ColumnsAppend(a, [m]);
    assert Columns([m]) == [] by {
      assert [m][1..] == [];
    }
  }

  /** A table made only of supported columns keeps every one of them. */
  lemma {:induction false} SupportedColumnsKept(ms: seq<Member>)
    requires forall j :: 0 <= j < |ms| ==> ColumnOf(ms[j].field).Some?
    ensures |Columns(ms)| == |ms|
    ensures forall j :: 0 <= j < |ms| ==> Some(Columns(ms)[j]) == ColumnOf(ms[j].field)
  {
    if ms != [] {
      SupportedColumnsKept(ms[1..]);
    }
  }

  /** `decodeNTTable`: names are the labels verbatim; types and values are
      the supported columns of `value`, index by index. A missing or
      mistyped `labels` or `value` throws. */
  function TableOf(s: Structure): (r: Result<VTable, DecodeError>)
    ensures r.Ok? <==> GetStringArray(s, "labels").Found? && GetStructure(s, "value").Found?
    ensures GetStringArray(s, "labels").Absent? ==> r == Err(NullField("labels"))
    ensures GetStringArray(s, "labels").WrongType? ==> r == Err(ClassCast("labels"))
    ensures r.Ok? ==>
      var cs := Columns(GetStructure(s, "value").value.members);
      && r.value.names == GetStringArray(s, "labels").value
      && |r.value.types| == |r.value.values| == |cs|
      && forall k :: 0 <= k < |cs| ==> r.value.types[k] == cs[k].ctype && r.value.values[k] == cs[k].data
  {
    match GetStringArray(s, "labels")
    case Absent => Err(NullField("labels"))
    case WrongType => Err(ClassCast("labels"))
    case Found(names) =>
      match GetStructure(s, "value")
      case Absent => Err(NullField("value"))
      case WrongType => Err(ClassCast("value"))
      case Found(valueStruct) =>
        var cs := Columns(valueStruct.members);
        Ok(VTable(seq(|cs|, k requires 0 <= k < |cs| => cs[k].ctype), names,
                  seq(|cs|, k requires 0 <= k < |cs| => cs[k].data)))
  }

  /** The `decodeNTTable` loop: `types` and `values` grow together, one
      entry per supported column. */
  method DecodeNTTable(s: Structure) returns (r: Result<VTable, DecodeError>)
    ensures r == TableOf(s)
  {
    var labels := GetStringArray(s, "labels");
    if labels.WrongType? {
      return Err(ClassCast("labels"));
    }
    if labels.Absent? {
      return Err(NullField("labels"));
    }
    var names := labels.value;
    var types: seq<ColumnType> := [];
    var values: seq<ColumnData> := [];
    var valueStruct := GetStructure(s, "value");
    if valueStruct.WrongType? {
      return Err(ClassCast("value"));
    }
    if valueStruct.Absent? {
      return Err(NullField("value"));
    }
    var columns := valueStruct.value.members;
    var i := 0;
    while i < |columns|
      invariant 0 <= i <= |columns|
      invariant |types| == |values| == |Columns(columns[..i])|
      invariant forall k :: 0 <= k < |types| ==>
        types[k] == Columns(columns[..i])[k].ctype && values[k] == Columns(columns[..i])[k].data
    {
      match columns[i].field {
        case NumArray(Double, _, xs) =>
          types := types + [DoubleType];
          values := values + [DoubleColumn(xs)];
        case NumArray(Float, _, xs) =>
          types := types + [FloatType];
          values := values + [FloatColumn(xs)];
        case NumArray(Int, unsigned, xs) =>
          types := types + [IntegerType];
          if unsigned {
            values := values + [UIntColumn(xs)];
          } else {
            values := values + [IntColumn(xs)];
          }
        case StrArray(xs) =>
          types := types + [StringType];
          values := values + [StringColumn(xs)];
        case _ =>
      }
      assert columns[..i + 1] == columns[..i] + [columns[i]];
      ColumnsAppend(columns[..i], [columns[i]]);
      assert [columns[i]][1..] == [];
      i := i + 1;
    }
    assert columns[..i] == columns;
    ghost var cs := Columns(columns);
    assert types == seq(|cs|, k requires 0 <= k < |cs| => cs[k].ctype);
    assert values == seq(|cs|, k requires 0 <= k < |cs| => cs[k].data);
    return Ok(VTable(types, names, values));
  }

  // ---------------------------------------------------------------- dispatch

  /** Shape-based inference for a structure without a known tag. */
  function ByShape(actual: Structure): Result<VType, DecodeError> {
    var field := Get(actual, "value");
    if IsScalarField(field) then DecodeScalar(actual)
    else if field.Some? && IsArray(field.value) then Ok(DecodeNTArray(actual))
    else Ok(StringValue(actual, UnknownType))
  }

  /** Routing of the decode target by its normalised type tag. */
  function DecodeTarget(actual: Structure): Result<VType, DecodeError> {
    match NormativeTypeOf(actual.typeName)
    case Some(NTScalar) => DecodeScalar(actual)
    case Some(NTEnum) => Ok(EnumValue(actual))
    case Some(NTScalarArray) => Ok(DecodeNTArray(actual))
    case Some(NTNDArray) => Ok(ImageValue(actual))
    case Some(NTTable) =>
      (match TableOf(actual)
       case Ok(t) => Ok(TableValue(t))
       case Err(e) => Err(e))
    case None => ByShape(actual)
  }

  /** `getVType(struct, name_helper)` with `requested` the field that the
      name helper names: a requested field other than `value` is looked up
      first; a nested structure becomes the target, a number or string is
      decoded at once with the original structure as metadata. */
  function Dispatch(s: Structure, requested: string): (r: Result<VType, DecodeError>)
    ensures r.Err? ==> r.error.NotScalar? || r.error.NullField? || r.error.ClassCast?
  {
    if requested != "value" then
      match Get(s, requested)
      case Some(Struct(nested)) => DecodeTarget(nested)
      case Some(Num(n)) => Ok(ScalarValue(DecodeNumber, s, Num(n)))
      case Some(Str(v)) => Ok(ScalarValue(DecodeString, s, Str(v)))
      case _ => DecodeTarget(s)
    else DecodeTarget(s)
  }

  /** The entry point, with the table decoded by its loop. */
  method GetVType(s: Structure, requested: string) returns (r: Result<VType, DecodeError>)
    ensures r == Dispatch(s, requested)
  {
    var actual := s;
    if requested != "value" {
      var field := Get(s, requested);
      if field.Some? {
        match field.value {
          case Struct(nested) => actual := nested;
          case Num(n) => return Ok(ScalarValue(DecodeNumber, s, field.value));
          case Str(v) => return Ok(ScalarValue(DecodeString, s, field.value));
          case _ =>
        }
      }
    }
    var tag := NormalizeTag(actual.typeName);
    if tag == "NTScalar:1.0" {
      return DecodeScalar(actual);
    }
    if tag == "NTEnum:1.0" {
      return Ok(EnumValue(actual));
    }
    if tag == "NTScalarArray:1.0" {
      return Ok(DecodeNTArray(actual));
    }
    if tag == "NTNDArray:1.0" {
      return Ok(ImageValue(actual));
    }
    if tag == "NTTable:1.0" {
      var table := DecodeNTTable(actual);
      if table.Err? {
        return Err(table.error);
      }
      return Ok(TableValue(table.value));
    }
    var field := Get(actual, "value");
    if IsScalarField(field) {
      return DecodeScalar(actual);
    } else if field.Some? && IsArray(field.value) {
      return Ok(DecodeNTArray(actual));
    }
    return Ok(StringValue(actual, UnknownType));
  }

  // ---------------------------------------------------------------- properties

  /** A requested sub-field: a nested structure is decoded in place of the
      whole; a number or string is decoded directly with the original
      structure's metadata; anything else, or nothing, changes nothing. */
  lemma SubFieldResolution(s: Structure, requested: string)
    requires requested != "value"
    ensures Get(s, requested).Some? && Get(s, requested).value.Struct? ==>
      Dispatch(s, requested) == Dispatch(Get(s, requested).value.st, "value")
    ensures Get(s, requested).Some? && Get(s, requested).value.Num? ==>
      Dispatch(s, requested) == Ok(ScalarValue(DecodeNumber, s, Get(s, requested).value))
    ensures Get(s, requested).Some? && Get(s, requested).value.Str? ==>
      Dispatch(s, requested) == Ok(ScalarValue(DecodeString, s, Get(s, requested).value))
    ensures !(Get(s, requested).Some? &&
              (Get(s, requested).value.Struct? || Get(s, requested).value.Num? || Get(s, requested).value.Str?)) ==>
      Dispatch(s, requested) == Dispatch(s, "value")
  {
  }

  /** Each Normative Type goes to its own decoder. */
  lemma TagRouting(s: Structure)
    ensures NormativeTypeOf(s.typeName) == Some(NTScalar) ==> Dispatch(s, "value") == DecodeScalar(s)
    ensures NormativeTypeOf(s.typeName) == Some(NTEnum) ==> Dispatch(s, "value") == Ok(EnumValue(s))
    ensures NormativeTypeOf(s.typeName) == Some(NTScalarArray) ==> Dispatch(s, "value") == Ok(DecodeNTArray(s))
    ensures NormativeTypeOf(s.typeName) == Some(NTNDArray) ==> Dispatch(s, "value") == Ok(ImageValue(s))
    ensures NormativeTypeOf(s.typeName) == Some(NTTable) ==>
      (TableOf(s).Ok? ==> Dispatch(s, "value") == Ok(TableValue(TableOf(s).value)))
      && (TableOf(s).Err? ==> Dispatch(s, "value") == Err(TableOf(s).error))
  {
  }

  /** Without a known tag the shape of `value` decides: scalar for a number
      or string, array for any array, an "Unknown type" string value
      otherwise. None of these branches of `getVType` throws itself; what
      the chosen payload decoder may throw is not part of `Dispatch`. */
  lemma ShapeFallback(s: Structure)
    requires NormativeTypeOf(s.typeName).None?
    ensures Dispatch(s, "value").Ok?
    ensures IsScalarField(Get(s, "value")) ==>
      Dispatch(s, "value").value.ScalarValue? && Dispatch(s, "value").value.meta == s
    ensures Get(s, "value").Some? && IsArray(Get(s, "value").value) ==>
      Dispatch(s, "value") == Ok(DecodeNTArray(s))
    ensures !IsScalarField(Get(s, "value")) && !(Get(s, "value").Some? && IsArray(Get(s, "value").value)) ==>
      Dispatch(s, "value") == Ok(StringValue(s, UnknownType))
  {
  }

  /** The columns of the example below: x and y double arrays, z a short array. */
  function ExampleColumns(xs: seq<int>, ys: seq<int>, zs: seq<int>): Structure {
    Structure("", [Member("x", NumArray(Double, false, xs)),
                   Member("y", NumArray(Double, false, ys)),
                   Member("z", NumArray(Short, false, zs))])
  }

  function ExampleTable(xs: seq<int>, ys: seq<int>, zs: seq<int>): Structure {
    Structure("epics:nt/NTTable:1.0", [Member("labels", StrArray(["x", "y"])),
                                       Member("value", Struct(ExampleColumns(xs, ys, zs)))])
  }

  lemma ExampleLookups(xs: seq<int>, ys: seq<int>, zs: seq<int>)
    ensures NormativeTypeOf(ExampleTable(xs, ys, zs).typeName) == Some(NTTable)
    ensures GetStringArray(ExampleTable(xs, ys, zs), "labels") == Found(["x", "y"])
    ensures GetStructure(ExampleTable(xs, ys, zs), "value") == Found(ExampleColumns(xs, ys, zs))
  {
    var s := ExampleTable(xs, ys, zs);
    TagMatching(NTTable, "");
    assert "labels" != "value";
    assert s.members[1..] == [Member("value", Struct(ExampleColumns(xs, ys, zs)))];
    assert Find(s.members[1..], "value") == Some(Struct(ExampleColumns(xs, ys, zs)));
  }

  lemma ExampleColumnsDecoded(xs: seq<int>, ys: seq<int>, zs: seq<int>)
    ensures Columns(ExampleColumns(xs, ys, zs).members) ==
      [Column(DoubleType, DoubleColumn(xs)), Column(DoubleType, DoubleColumn(ys))]
  {
    var ms := ExampleColumns(xs, ys, zs).members;
    UnsupportedColumnSkipped(ms[..2], ms[2], []);
    assert ms == ms[..2] + [ms[2]] + [];
    SupportedColumnsKept(ms[..2]);
  }

  /** An NTTable with labels x, y, two double columns and a short column
      decodes to the two double columns, the short column left out. */
  lemma TableExample(xs: seq<int>, ys: seq<int>, zs: seq<int>)
    ensures Dispatch(ExampleTable(xs, ys, zs), "value") ==
      Ok(TableValue(VTable([DoubleType, DoubleType], ["x", "y"], [DoubleColumn(xs), DoubleColumn(ys)])))
  {
    var s := ExampleTable(xs, ys, zs);
    ExampleLookups(xs, ys, zs);
    ExampleColumnsDecoded(xs, ys, zs);
    var cs := Columns(ExampleColumns(xs, ys, zs).members);
    assert seq(|cs|, k requires 0 <= k < |cs| => cs[k].ctype) == [DoubleType, DoubleType];
    assert seq(|cs|, k requires 0 <= k < |cs| => cs[k].data) == [DoubleColumn(xs), DoubleColumn(ys)];
    TagRouting(s);
  }

  /** Within `getVType`, `decodeScalar` and `decodeNTTable`, only the check
      for a scalar `value` of an NTScalar and the table's own lookups throw;
      failures inside the payload decoders they hand over to are not part
      of `Dispatch`. */
  lemma FailureIsolation(s: Structure)
    ensures Dispatch(s, "value").Err? ==>
      (NormativeTypeOf(s.typeName) == Some(NTScalar) && !IsScalarField(Get(s, "value")))
      || (NormativeTypeOf(s.typeName) == Some(NTTable) && TableOf(s).Err?)
  {
  }
}
