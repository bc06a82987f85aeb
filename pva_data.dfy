/** The already-deserialised PV Access data that the decoders read: a
    structure is a type name plus an ordered list of named fields. */
module PvaData {
  import opened Wrappers

  /** Kinds of PVA numbers (PVAByte ... PVADouble). */
  datatype NumKind = Byte | Short | Int | Long | Float | Double

  /** A PVA number. For the integer kinds `value` is what `get()` returns in
      Java; for Float and Double it is an uninterpreted code of the floating
      value (the model never computes with floating values). */
  datatype Number = Number(kind: NumKind, unsigned: bool, value: int)

  /** Array element kinds other than numbers and strings. */
  datatype OtherElem = BoolElem | StructElem | UnionElem

  datatype Field =
    | Num(n: Number)
    | Str(s: string)
    | Bool(b: bool)
    | NumArray(kind: NumKind, unsigned: bool, items: seq<int>)
    | StrArray(strs: seq<string>)
    | OtherArray(elem: OtherElem)
    | Struct(st: Structure)
    | Union

  datatype Member = Member(name: string, field: Field)

  /** `typeName` is `getStructureName()`, the empty string when none was sent. */
  datatype Structure = Structure(typeName: string, members: seq<Member>)

  /** Every PVA array class (PVAArray). */
  predicate IsArray(f: Field) {
    f.NumArray? || f.StrArray? || f.OtherArray?
  }

  /** What a decode can throw. */
  datatype DecodeError =
    | ClassCast(name: string)          // a field of another kind was cast to the expected class
    | NullField(name: string)          // a field the code dereferences was absent
    | NoSuchOrdinal(code: int)         // alarm code outside the enumeration's values()
    | InstantOutOfRange(seconds: int)  // Instant.ofEpochSecond outside Instant's range
    | NotScalar(s: Structure)          // "Expected struct with scalar 'value'"

  /** First field called `name`, or None: `PVAStructure.get(name)`. */
  function Find(ms: seq<Member>, name: string): Option<Field> {
    if ms == [] then None
    else if ms[0].name == name then Some(ms[0].field)
    else Find(ms[1..], name)
  }

  /** Lookup is by exact name: None when no field has that name, otherwise
      the field of the first one that does. */
  lemma {:induction false} FindFirst(ms: seq<Member>, name: string)
    ensures Find(ms, name).None? <==> forall i :: 0 <= i < |ms| ==> ms[i].name != name
    ensures Find(ms, name).Some? ==>
      exists i :: 0 <= i < |ms| && ms[i] == Member(name, Find(ms, name).value)
                  && forall j :: 0 <= j < i ==> ms[j].name != name
  {
    if ms != [] && ms[0].name != name {
      FindFirst(ms[1..], name);
      if Find(ms, name).Some? {
        var i :| 0 <= i < |ms[1..]| && ms[1..][i] == Member(name, Find(ms, name).value)
                 && forall j :: 0 <= j < i ==> ms[1..][j].name != name;
        assert ms[i + 1] == ms[1..][i];
        assert forall j :: 0 <= j < i + 1 ==> ms[j].name != name by {
          forall j | 0 <= j < i + 1 ensures ms[j].name != name {
            if j > 0 { assert ms[j] == ms[1..][j - 1]; }
          }
        }
      } else {
        assert forall i :: 0 <= i < |ms| ==> ms[i].name != name by {
          forall i | 0 <= i < |ms| ensures ms[i].name != name {
            if i > 0 { assert ms[i] == ms[1..][i - 1]; }
          }
        }
      }
    }
  }

  function Get(s: Structure, name: string): Option<Field> {
    Find(s.members, name)
  }

  /** Result of `T x = struct.get(name)` in Java: null when absent, a
      ClassCastException when the field is of another class. */
  datatype Lookup<+T> = Absent | Found(value: T) | WrongType

  function GetStructure(s: Structure, name: string): Lookup<Structure> {
    match Get(s, name)
    case None => Absent
    case Some(Struct(st)) => Found(st)
    case Some(_) => WrongType
  }

  /** PVAInt: a 32-bit integer, signed or unsigned. */
  function GetInt(s: Structure, name: string): Lookup<int> {
    match Get(s, name)
    case None => Absent
    case Some(Num(n)) => if n.kind == Int then Found(n.value) else WrongType
    case Some(_) => WrongType
  }

  /** PVALong: a 64-bit integer, signed or unsigned. */
  function GetLong(s: Structure, name: string): Lookup<int> {
    match Get(s, name)
    case None => Absent
    case Some(Num(n)) => if n.kind == Long then Found(n.value) else WrongType
    case Some(_) => WrongType
  }

  function GetString(s: Structure, name: string): Lookup<string> {
    match Get(s, name)
    case None => Absent
    case Some(Str(v)) => Found(v)
    case Some(_) => WrongType
  }

  function GetStringArray(s: Structure, name: string): Lookup<seq<string>> {
    match Get(s, name)
    case None => Absent
    case Some(StrArray(v)) => Found(v)
    case Some(_) => WrongType
  }

  /** `getDoubleValue(struct, name, NaN)`: the number when the field is a
      PVANumber, None (NaN) for an absent field or one of another kind. */
  function GetNumber(s: Structure, name: string): (r: Option<Number>)
    ensures r.Some? <==> Get(s, name).Some? && Get(s, name).value.Num?
    ensures r.Some? ==> Get(s, name) == Some(Num(r.value))
  {
    match Get(s, name)
    case Some(Num(n)) => Some(n)
    case _ => None
  }

  /** The structure with every field called `name` removed. */
  function Without(s: Structure, name: string): Structure {
    Structure(s.typeName, Remove(s.members, name))
  }

  function Remove(ms: seq<Member>, name: string): seq<Member> {
    if ms == [] then []
    else if ms[0].name == name then Remove(ms[1..], name)
    else [ms[0]] + Remove(ms[1..], name)
  }

  /** Removing the fields called `name` hides exactly that name from lookup. */
  lemma {:induction false} FindRemove(ms: seq<Member>, name: string, other: string)
    ensures Find(Remove(ms, name), other) == if other == name then None else Find(ms, other)
  {
    if ms != [] {
      FindRemove(ms[1..], name, other);
      if ms[0].name != name {
        assert ([ms[0]] + Remove(ms[1..], name))[1..] == Remove(ms[1..], name);
      }
    }
  }

  lemma GetWithout(s: Structure, name: string, other: string)
    ensures Get(Without(s, name), other) == if other == name then None else Get(s, other)
  {
    FindRemove(s.members, name, other);
  }
}
