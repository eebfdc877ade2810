/**
 The `IntEnum` column type of `coopcontrol/models/__init__.py`: enum members are
 written to the database as integers and read back through the column's enum
 class. The two enum classes stored this way are `AppStatus` and
 `HardwareStatus`, each with the values 1, 2 and 3.
 */
module IntEnumColumn {
  import opened Python
  import Calendar

  datatype AppStatus = Active | Locked | Archived
  datatype HardwareStatus = Open | Closed | Disabled

  /** The enum classes a column can be configured with. */
  datatype EnumType = AppStatusType | HardwareStatusType

  /** A member of one of the enum classes. */
  datatype Member = App(app: AppStatus) | Hardware(hardware: HardwareStatus)

  function TypeOf(m: Member): EnumType {
    match m
    case App(_) => AppStatusType
    case Hardware(_) => HardwareStatusType
  }

  /** The integer each member stands for. */
  function Value(m: Member): (v: int)
    ensures 1 <= v <= 3
  {
    match m
    case App(Active) => 1
    case App(Locked) => 2
    case App(Archived) => 3
    case Hardware(Open) => 1
    case Hardware(Closed) => 2
    case Hardware(Disabled) => 3
  }

  /** The class name Python shows in its error message. */
  function TypeName(t: EnumType): string {
    match t
    case AppStatusType => "AppStatus"
    case HardwareStatusType => "HardwareStatus"
  }

  /** `repr` of an integer. */
  function IntRepr(i: int): string {
    if i < 0 then "-" + Calendar.Decimal(-i) else Calendar.Decimal(i)
  }

  /** `t(value)`: the member of `t` whose value is `value`, or ValueError. */
  function Construct(t: EnumType, value: int): (r: Result<Member>)
    ensures r.Ok? <==> 1 <= value <= 3
    ensures r.Ok? ==> TypeOf(r.value) == t && Value(r.value) == value
    ensures r.Raised? ==> r.exc == ValueError(IntRepr(value) + " is not a valid " + TypeName(t))
  {
    if value < 1 || value > 3 then Raised(ValueError(IntRepr(value) + " is not a valid " + TypeName(t)))
    else
      match t
      case AppStatusType => Ok(App(if value == 1 then Active else if value == 2 then Locked else Archived))
      case HardwareStatusType => Ok(Hardware(if value == 1 then Open else if value == 2 then Closed else Disabled))
  }

  /** The Python values a model can assign to an enum column. An IntEnum member
      and a bool are both instances of `int`; `WithValue` is any other object
      whose `.value` is an integer (a plain Enum member, say), and `NoValue` one
      without a `.value` attribute, such as None. */
  datatype PyValue = PyInt(i: int) | PyBool(b: bool) | PyMember(m: Member) | WithValue(value: int) | NoValue

  /** `isinstance(value, int)`. */
  predicate IsInt(v: PyValue) {
    v.PyInt? || v.PyBool? || v.PyMember?
  }

  /** The integer the database stores for a bound int: a bool as 0 or 1, a member
      as its value. */
  function StoredInt(v: PyValue): (i: int)
    requires IsInt(v) || v.WithValue?
  {
    match v
    case PyInt(i) => i
    case PyBool(b) => if b then 1 else 0
    case PyMember(m) => Value(m)
    case WithValue(value) => value
  }

  /** `process_bind_param`: an int (members and bools included) passes unchanged
      and unvalidated; anything else is bound as its `.value`. */
  function ProcessBindParam(v: PyValue): (r: Result<PyValue>)
    ensures IsInt(v) ==> r == Ok(v)
    ensures v.WithValue? ==> r == Ok(PyInt(v.value))
    ensures r.Ok? ==> !v.NoValue? && IsInt(r.value) && StoredInt(r.value) == StoredInt(v)
    ensures v.NoValue? ==> r.Raised? && r.exc.AttributeError?
  {
    if IsInt(v) then Ok(v)
    else match v
      case WithValue(value) => Ok(PyInt(value))
      case NoValue => Raised(AttributeError("object has no attribute 'value'"))
  }

  /** `process_result_value`: the stored integer through the column's enum class. */
  function ProcessResultValue(t: EnumType, stored: int): (r: Result<Member>)
    ensures r.Ok? <==> 1 <= stored <= 3
    ensures r.Ok? ==> TypeOf(r.value) == t && Value(r.value) == stored
    ensures r.Raised? ==> r.exc.ValueError?
  {
    Construct(t, stored)
  }

  /** Writing a member and reading it back through its own class gives the member. */
  lemma MemberRoundTrip(m: Member)
    ensures ProcessBindParam(PyMember(m)).Ok?
    ensures ProcessResultValue(TypeOf(m), StoredInt(ProcessBindParam(PyMember(m)).value)) == Ok(m)
  {
  }

  /** Reading a valid stored integer and writing the member back stores the same integer. */
  lemma StoredRoundTrip(t: EnumType, stored: int)
    requires 1 <= stored <= 3
    ensures var m := ProcessResultValue(t, stored).value;
            ProcessBindParam(PyMember(m)).Ok? && StoredInt(ProcessBindParam(PyMember(m)).value) == stored
  {
  }

  /** Binding does not check the enum class: a plain integer, or a member of the
      other class, is stored and reads back as the member of the column's class
      with that value, and an out-of-range integer is stored but cannot be read. */
  lemma BindIsUnchecked(t: EnumType, v: PyValue)
    requires IsInt(v)
    ensures ProcessBindParam(v) == Ok(v)
    ensures ProcessResultValue(t, StoredInt(v)).Ok? <==> 1 <= StoredInt(v) <= 3
    ensures v.PyMember? ==> ProcessResultValue(t, StoredInt(v)).Ok? &&
                            Value(ProcessResultValue(t, StoredInt(v)).value) == Value(v.m)
  {
  }

  /** The values of each class are distinct, so a column's members are told apart
      by their stored integers. */
  lemma ValuesDistinguishMembers(m1: Member, m2: Member)
    requires TypeOf(m1) == TypeOf(m2)
    ensures Value(m1) == Value(m2) <==> m1 == m2
  {
  }

  /** The default of a new application's status is stored as 1. */
  lemma DefaultStatusExample()
    ensures ProcessBindParam(PyMember(App(Active))) == Ok(PyMember(App(Active)))
    ensures StoredInt(PyMember(App(Active))) == 1
    ensures ProcessResultValue(AppStatusType, 4) == Raised(ValueError("4 is not a valid AppStatus"))
  {
  }
}
