/** The type language of tool functions: the JSON schema sent out for a type, and the coercion applied to
    what comes back. */
module ToolTypes {
  import opened Wrappers

  /** A value of Literal[...] or of an enum member. */
  datatype Lit = LNone | LBool(b: bool) | LInt(i: int) | LFloat(r: real) | LStr(s: string)

  datatype Member = Member(name: string, value: Lit)

  /** Type hints, as typing.get_origin and get_args take them apart. */
  datatype Type =
    | TNone
    | TStr
    | TInt
    | TFloat
    | TBool
    | TList(elem: Type)
    | TDict(value: Type)
    | TUnion(options: seq<Type>)
    | TLiteral(lits: seq<Lit>)
    | TEnum(name: string, members: seq<Member>)

  /** What JSON parses to, and members of enum classes. */
  datatype Value =
    | VNone
    | VBool(b: bool)
    | VInt(i: int)
    | VFloat(r: real)
    | VStr(s: string)
    | VList(items: seq<Value>)
    | VDict(entries: map<string, Value>)
    | VMember(enum: string, index: nat)

  /** The built-ins of Python that coercion leans on: str(), which refuses integers of too many digits,
      int() and float() of a string, float() of an integer, which rounds and can overflow, strip() and
      lower(), and calling a scalar class with the entries of a dict, which some versions allow. */
  datatype Python = Python(
    show: Value -> Option<string>,
    readInt: string -> Option<int>,
    readFloat: string -> Option<real>,
    floatOfInt: int -> Option<real>,
    strip: string -> string,
    lower: string -> string,
    strFromDict: map<string, Value> -> Option<string>,
    intFromDict: map<string, Value> -> Option<int>,
    floatFromDict: map<string, Value> -> Option<real>,
    boolFromDict: map<string, Value> -> Option<bool>,
    noneFromDict: map<string, Value> -> bool)

  function Number(v: Value): Option<real> {
    match v
    case VBool(b) => Some(if b then 1.0 else 0.0)
    case VInt(i) => Some(i as real)
    case VFloat(r) => Some(r)
    case _ => None
  }

  function ValueOf(l: Lit): Value {
    match l
    case LNone => VNone
    case LBool(b) => VBool(b)
    case LInt(i) => VInt(i)
    case LFloat(r) => VFloat(r)
    case LStr(s) => VStr(s)
  }

  /** Python's ==, under which True, 1 and 1.0 are equal. */
  predicate PyEq(v: Value, l: Lit) {
    if Number(v).Some? || Number(ValueOf(l)).Some? then Number(v) == Number(ValueOf(l)) else v == ValueOf(l)
  }

  predicate Integral(r: real) { r.Floor as real == r }

  predicate InLits(v: Value, lits: seq<Lit>) {
    exists i :: 0 <= i < |lits| && PyEq(v, lits[i])
  }

  // --- Coercion -----------------------------------------------------------------------------------

  function CoerceBool(py: Python, v: Value): Option<Value> {
    match v
    case VBool(b) => Some(v)
    case VInt(i) => Some(VBool(i != 0))
    case VStr(s) =>
      var w := py.lower(py.strip(s));
      if w in ["true", "1", "yes", "y", "on"] then Some(VBool(true))
      else if w in ["false", "0", "no", "n", "off"] then Some(VBool(false))
      else None
    case _ => None
  }

  /** A scalar class: an instance is taken as it is, a dict is offered to the constructor, and anything
      else goes to the scalar coercions. */
  function CoerceScalar(py: Python, v: Value, t: Type): Option<Value>
    requires t.TStr? || t.TInt? || t.TFloat? || t.TBool?
  {
    match t
    case TStr =>
      if v.VStr? then Some(v)
      else if v.VDict? then (match py.strFromDict(v.entries) case Some(s) => Some(VStr(s)) case None => None)
      else (match py.show(v) case Some(s) => Some(VStr(s)) case None => None)
    case TInt =>
      if v.VInt? || v.VBool? then Some(v)
      else if v.VDict? then (match py.intFromDict(v.entries) case Some(i) => Some(VInt(i)) case None => None)
      else if v.VFloat? && Integral(v.r) then Some(VInt(v.r.Floor))
      else if v.VStr? then (match py.readInt(py.strip(v.s)) case Some(i) => Some(VInt(i)) case None => None)
      else None
    case TFloat =>
      if v.VFloat? then Some(v)
      else if v.VDict? then (match py.floatFromDict(v.entries) case Some(r) => Some(VFloat(r)) case None => None)
      else if v.VBool? then Some(VFloat(Number(v).value))
      else if v.VInt? then (match py.floatOfInt(v.i) case Some(r) => Some(VFloat(r)) case None => None)
      else if v.VStr? then (match py.readFloat(py.strip(v.s)) case Some(r) => Some(VFloat(r)) case None => None)
      else None
    case TBool =>
      if v.VBool? then Some(v)
      else if v.VDict? then (match py.boolFromDict(v.entries) case Some(b) => Some(VBool(b)) case None => None)
      else CoerceBool(py, v)
  }

  /** The index of the first member for which the test holds. */
  function FirstMember(members: seq<Member>, test: Member -> bool): (r: Option<nat>)
    ensures r.Some? ==> r.value < |members| && test(members[r.value]) && forall i :: 0 <= i < r.value ==> !test(members[i])
    ensures r.None? ==> forall i :: 0 <= i < |members| ==> !test(members[i])
  {
    if members == [] then None
    else if test(members[0]) then Some(0)
    else match FirstMember(members[1..], test)
         case Some(i) => assert forall j :: 1 <= j < i + 1 ==> members[j] == members[1..][j - 1]; Some(i + 1)
         case None => assert forall i :: 1 <= i < |members| ==> members[i] == members[1..][i - 1]; None
  }

  /** By instance, then value, then name, then name without case. */
  function CoerceEnum(py: Python, v: Value, name: string, members: seq<Member>): Option<Value> {
    if v.VMember? && v.enum == name && v.index < |members| then Some(v) else
    match FirstMember(members, (m: Member) => PyEq(v, m.value))
    case Some(i) => Some(VMember(name, i))
    case None =>
      if !v.VStr? then None else
      var w := py.strip(v.s);
      match FirstMember(members, (m: Member) => m.name == w)
      case Some(i) => Some(VMember(name, i))
      case None =>
        match FirstMember(members, (m: Member) => py.lower(m.name) == py.lower(w))
        case Some(i) => Some(VMember(name, i))
        case None => None
  }

  /** What a string is read as when the literal aimed at is a number. */
  function ReadAs(py: Python, v: Value, target: Lit): Value {
    if target.LInt? && v.VStr? then (match py.readInt(v.s) case Some(i) => VInt(i) case None => v)
    else if target.LFloat? && v.VStr? then (match py.readFloat(v.s) case Some(r) => VFloat(r) case None => v)
    else v
  }

  function FirstRead(py: Python, v: Value, targets: seq<Lit>, lits: seq<Lit>): (r: Option<Value>)
    ensures r.Some? ==> InLits(r.value, lits)
  {
    if targets == [] then None
    else if InLits(ReadAs(py, v, targets[0]), lits) then Some(ReadAs(py, v, targets[0]))
    else FirstRead(py, v, targets[1..], lits)
  }

  function CoerceLiteral(py: Python, v: Value, lits: seq<Lit>): Option<Value> {
    if InLits(v, lits) then Some(v) else FirstRead(py, v, lits, lits)
  }

  /** _coerce_and_validate: None where it raises. */
  function Coerce(py: Python, v: Value, t: Type): Option<Value>
    decreases t
  {
    match t
    case TUnion(options) => CoerceUnion(py, v, options)
    case TLiteral(lits) => CoerceLiteral(py, v, lits)
    case TList(elem) =>
      if v.VList? && forall i :: 0 <= i < |v.items| ==> Coerce(py, v.items[i], elem).Some? then
        Some(VList(seq(|v.items|, i requires 0 <= i < |v.items| => Coerce(py, v.items[i], elem).value)))
      else None
    case TDict(value) =>
      if v.VDict? && forall k <- v.entries :: Coerce(py, v.entries[k], value).Some? then
        Some(VDict(map k | k in v.entries :: Coerce(py, v.entries[k], value).value))
      else None
    case TEnum(name, members) => CoerceEnum(py, v, name, members)
    case TNone =>
      if v.VDict? then (if py.noneFromDict(v.entries) then Some(VNone) else None) else Some(v)
    case TStr => CoerceScalar(py, v, t)
    case TInt => CoerceScalar(py, v, t)
    case TFloat => CoerceScalar(py, v, t)
    case TBool => CoerceScalar(py, v, t)
  }

  /** The options in turn; None is only taken for None. */
  function CoerceUnion(py: Python, v: Value, options: seq<Type>): Option<Value>
    decreases options
  {
    if options == [] then None
    else if options[0].TNone? then
      if v.VNone? then Some(VNone) else CoerceUnion(py, v, options[1..])
    else
      match Coerce(py, v, options[0])
      case Some(r) => Some(r)
      case None => CoerceUnion(py, v, options[1..])
  }

  // --- Schemas ------------------------------------------------------------------------------------

  datatype Prim = PNull | PBoolean | PInteger | PNumber | PString

  datatype Schema =
    | SPrim(prim: Prim)
    | SArray(items: Schema)
    | SObject(additional: Schema)
    | SAnyOf(options: seq<Schema>)
    | SEnum(values: seq<Lit>, shared: Option<Prim>)

  function PrimOf(l: Lit): Prim {
    match l
    case LNone => PNull
    case LBool(_) => PBoolean
    case LInt(_) => PInteger
    case LFloat(_) => PNumber
    case LStr(_) => PString
  }

  /** The one type that the literals other than None share, if they do. */
  function SharedPrim(lits: seq<Lit>): Option<Prim> {
    var prims := set i | 0 <= i < |lits| :: PrimOf(lits[i]);
    if prims == {PNull} then Some(PNull)
    else if prims - {PNull} == {PBoolean} then Some(PBoolean)
    else if prims - {PNull} == {PInteger} then Some(PInteger)
    else if prims - {PNull} == {PNumber} then Some(PNumber)
    else if prims - {PNull} == {PString} then Some(PString)
    else None
  }

  /** How many members an enum may list, and whether a larger one is refused. */
  datatype EnumPolicy = EnumPolicy(maxItems: nat, refuseLarge: bool)

  function NotNone(options: seq<Type>): seq<Type> {
    if options == [] then []
    else (if options[0].TNone? then [] else [options[0]]) + NotNone(options[1..])
  }

  lemma {:induction false} NotNoneMembers(options: seq<Type>)
    ensures forall t :: t in NotNone(options) <==> t in options && !t.TNone?
  {
    if options != [] {
      NotNoneMembers(options[1..]);
      assert options == [options[0]] + options[1..];
    }
  }

  /** _python_type_to_json_schema: None where it raises. */
  function SchemaOf(policy: EnumPolicy, t: Type): Option<Schema>
    decreases t
  {
    match t
    case TNone => Some(SPrim(PNull))
    case TStr => Some(SPrim(PString))
    case TInt => Some(SPrim(PInteger))
    case TFloat => Some(SPrim(PNumber))
    case TBool => Some(SPrim(PBoolean))
    case TList(elem) =>
      (match SchemaOf(policy, elem) case Some(s) => Some(SArray(s)) case None => None)
    case TDict(value) =>
      (match SchemaOf(policy, value) case Some(s) => Some(SObject(s)) case None => None)
    case TUnion(options) =>
      var named := NotNone(options);
      if |named| == 1 && TNone in options then
        NotNoneMembers(options);
        assert named[0] in options;
        SchemaOf(policy, named[0])
      else if forall i :: 0 <= i < |options| ==> SchemaOf(policy, options[i]).Some? then
        Some(SAnyOf(seq(|options|, i requires 0 <= i < |options| => SchemaOf(policy, options[i]).value)))
      else None
    case TLiteral(lits) => Some(SEnum(lits, SharedPrim(lits)))
    case TEnum(name, members) =>
      if |members| <= policy.maxItems then
        Some(SEnum(seq(|members|, i requires 0 <= i < |members| => members[i].value), Some(PString)))
      else if policy.refuseLarge then None
      else Some(SPrim(PString))
  }

  // --- JSON Schema validation -----------------------------------------------------------------------

  predicate OfPrim(v: Value, p: Prim) {
    match p
    case PNull => v.VNone?
    case PBoolean => v.VBool?
    case PInteger => v.VInt? || (v.VFloat? && Integral(v.r))
    case PNumber => v.VInt? || v.VFloat?
    case PString => v.VStr?
  }

  /** Equality of JSON instances: numbers by value, and no boolean is a number. */
  predicate JsonEq(v: Value, l: Lit) {
    if v.VBool? || l.LBool? then v == ValueOf(l) else PyEq(v, l)
  }

  ghost predicate ValidFor(v: Value, s: Schema)
    decreases s
  {
    match s
    case SPrim(p) => OfPrim(v, p)
    case SArray(items) => v.VList? && forall i :: 0 <= i < |v.items| ==> ValidFor(v.items[i], items)
    case SObject(additional) => v.VDict? && forall k <- v.entries :: ValidFor(v.entries[k], additional)
    case SAnyOf(options) => exists i :: 0 <= i < |options| && ValidFor(v, options[i])
    case SEnum(values, prim) =>
      (exists i :: 0 <= i < |values| && JsonEq(v, values[i])) && (prim.Some? ==> OfPrim(v, prim.value))
  }

  // --- What a type means ----------------------------------------------------------------------------

  /** The values a hint admits, at every depth.  A bool is an int, and literals go by Python's ==. */
  ghost predicate HasType(v: Value, t: Type)
    decreases t
  {
    match t
    case TNone => v.VNone?
    case TStr => v.VStr?
    case TInt => v.VInt? || v.VBool?
    case TFloat => v.VFloat?
    case TBool => v.VBool?
    case TList(elem) => v.VList? && forall i :: 0 <= i < |v.items| ==> HasType(v.items[i], elem)
    case TDict(value) => v.VDict? && forall k <- v.entries :: HasType(v.entries[k], value)
    case TUnion(options) => exists i :: 0 <= i < |options| && HasType(v, options[i])
    case TLiteral(lits) => InLits(v, lits)
    case TEnum(name, members) => v.VMember? && v.enum == name && v.index < |members|
  }

  /** Where a hint is a bare None, outside the options of a union, there is a None, or a dict, which is
      offered to the class of None as to any other. */
  predicate NonesFit(v: Value, t: Type)
    decreases t
  {
    match t
    case TNone => v.VNone? || v.VDict?
    case TList(elem) => v.VList? ==> forall i :: 0 <= i < |v.items| ==> NonesFit(v.items[i], elem)
    case TDict(value) => v.VDict? ==> forall k <- v.entries :: NonesFit(v.entries[k], value)
    case TUnion(options) => forall i :: 0 <= i < |options| ==> options[i].TNone? || NonesFit(v, options[i])
    case _ => true
  }

  /** None stands only among the options of a union. */
  predicate NoBareNone(t: Type)
    decreases t
  {
    match t
    case TNone => false
    case TList(elem) => NoBareNone(elem)
    case TDict(value) => NoBareNone(value)
    case TUnion(options) => forall i :: 0 <= i < |options| ==> options[i].TNone? || NoBareNone(options[i])
    case _ => true
  }

  predicate SmallEnums(policy: EnumPolicy, t: Type)
    decreases t
  {
    match t
    case TList(elem) => SmallEnums(policy, elem)
    case TDict(value) => SmallEnums(policy, value)
    case TUnion(options) => forall i :: 0 <= i < |options| ==> SmallEnums(policy, options[i])
    case TEnum(_, members) => |members| <= policy.maxItems
    case _ => true
  }

  // --- Coercion is sound ----------------------------------------------------------------------------

  /** Whatever coercion returns inhabits the hint, as long as only None is given for a bare None; and
      without unions, only then. */
  lemma {:induction false} CoerceIsSound(py: Python, v: Value, t: Type)
    requires Coerce(py, v, t).Some?
    ensures NonesFit(v, t) ==> HasType(Coerce(py, v, t).value, t)
    ensures NoUnion(t) && HasType(Coerce(py, v, t).value, t) ==> NonesFit(v, t)
    decreases t
  {
    var r := Coerce(py, v, t).value;
    match t
    case TNone =>
    case TUnion(options) => if NonesFit(v, t) { UnionIsSound(py, v, options); }
    case TList(elem) =>
      forall i | 0 <= i < |v.items|
        ensures NonesFit(v.items[i], elem) ==> HasType(r.items[i], elem)
        ensures NoUnion(elem) && HasType(r.items[i], elem) ==> NonesFit(v.items[i], elem)
      {
        CoerceIsSound(py, v.items[i], elem);
      }
    case TDict(value) =>
      forall k <- v.entries
        ensures NonesFit(v.entries[k], value) ==> HasType(r.entries[k], value)
        ensures NoUnion(value) && HasType(r.entries[k], value) ==> NonesFit(v.entries[k], value)
      {
        CoerceIsSound(py, v.entries[k], value);
      }
    case TLiteral(lits) =>
    case TEnum(name, members) =>
    case TStr =>
    case TInt =>
    case TFloat =>
    case TBool =>
  }

  lemma {:induction false} UnionIsSound(py: Python, v: Value, options: seq<Type>)
    requires forall i :: 0 <= i < |options| ==> options[i].TNone? || NonesFit(v, options[i])
    requires CoerceUnion(py, v, options).Some?
    ensures exists i :: 0 <= i < |options| && HasType(CoerceUnion(py, v, options).value, options[i])
    decreases options
  {
    var r := CoerceUnion(py, v, options).value;
    if options[0].TNone? && v.VNone? {
      assert HasType(r, options[0]);
    } else if !options[0].TNone? && Coerce(py, v, options[0]).Some? {
      CoerceIsSound(py, v, options[0]);
    } else {
      UnionIsSound(py, v, options[1..]);
      var j :| 0 <= j < |options[1..]| && HasType(r, options[1..][j]);
      assert HasType(r, options[j + 1]);
    }
  }

  /** A hint without bare Nones asks nothing of the value. */
  lemma {:induction false} NoneFitsAlways(v: Value, t: Type)
    requires NoBareNone(t)
    ensures NonesFit(v, t)
    decreases t
  {
    match t
    case TList(elem) =>
      if v.VList? { forall i | 0 <= i < |v.items| ensures NonesFit(v.items[i], elem) { NoneFitsAlways(v.items[i], elem); } }
    case TDict(value) =>
      if v.VDict? { forall k <- v.entries ensures NonesFit(v.entries[k], value) { NoneFitsAlways(v.entries[k], value); } }
    case TUnion(options) =>
      forall i | 0 <= i < |options| && !options[i].TNone? ensures NonesFit(v, options[i]) { NoneFitsAlways(v, options[i]); }
    case TStr =>
    case TInt =>
    case TFloat =>
    case TBool =>
    case TLiteral(lits) =>
    case TEnum(name, members) =>
  }

  /** A bare None hint checks nothing: every value but a dict is passed through. */
  lemma BareNoneIsUnsound(py: Python, v: Value)
    requires !v.VDict? && !v.VNone?
    ensures Coerce(py, v, TNone) == Some(v) && !HasType(v, TNone)
    ensures Coerce(py, VList([v]), TList(TNone)) == Some(VList([v])) && !HasType(VList([v]), TList(TNone))
  {
    assert VList([v]).items[0] == v;
    assert Coerce(py, VList([v]), TList(TNone)).value.items == [v];
  }

  // --- Coercion accepts what the schema asks for ------------------------------------------------------

  lemma JsonEqIsPyEq(v: Value, l: Lit)
    requires JsonEq(v, l)
    ensures PyEq(v, l)
  {
  }

  lemma {:induction false} UnionAccepts(py: Python, v: Value, options: seq<Type>, i: nat)
    requires i < |options|
    requires if options[i].TNone? then v.VNone? else Coerce(py, v, options[i]).Some?
    ensures CoerceUnion(py, v, options).Some?
    decreases i
  {
    if i > 0 {
      UnionAccepts(py, v, options[1..], i - 1);
    }
  }

  /** No integer stands where a float is asked for that float() refuses. */
  predicate FloatsFit(py: Python, v: Value, t: Type)
    decreases t
  {
    match t
    case TFloat => v.VInt? ==> py.floatOfInt(v.i).Some?
    case TList(elem) => v.VList? ==> forall i :: 0 <= i < |v.items| ==> FloatsFit(py, v.items[i], elem)
    case TDict(value) => v.VDict? ==> forall k <- v.entries :: FloatsFit(py, v.entries[k], value)
    case TUnion(options) => forall i :: 0 <= i < |options| ==> FloatsFit(py, v, options[i])
    case _ => true
  }

  predicate NoUnion(t: Type)
    decreases t
  {
    match t
    case TList(elem) => NoUnion(elem)
    case TDict(value) => NoUnion(value)
    case TUnion(_) => false
    case _ => true
  }

  /** Every JSON value valid against the schema sent out for a hint is accepted for that hint, as long as
      its integers fit the floats they stand for; without unions, only then. */
  lemma {:induction false} SchemaIsAccepted(py: Python, policy: EnumPolicy, v: Value, t: Type)
    requires SmallEnums(policy, t) && SchemaOf(policy, t).Some? && ValidFor(v, SchemaOf(policy, t).value)
    ensures FloatsFit(py, v, t) ==> Coerce(py, v, t).Some?
    ensures NoUnion(t) && Coerce(py, v, t).Some? ==> FloatsFit(py, v, t)
    decreases t, 1
  {
    hide CoerceEnum, CoerceLiteral, PyEq, JsonEq;
    match t
    case TNone =>
    case TStr =>
    case TInt =>
    case TFloat =>
    case TBool =>
    case TList(elem) => ListIsAccepted(py, policy, v, elem);
    case TDict(value) => DictIsAccepted(py, policy, v, value);
    case TUnion(options) => if FloatsFit(py, v, t) { UnionSchemaIsAccepted(py, policy, v, options); }
    case TLiteral(lits) => LiteralIsAccepted(py, v, lits);
    case TEnum(name, members) => EnumIsAccepted(py, policy, v, t);
  }

  lemma {:induction false} ListIsAccepted(py: Python, policy: EnumPolicy, v: Value, elem: Type)
    requires SmallEnums(policy, elem) && SchemaOf(policy, elem).Some? && ValidFor(v, SArray(SchemaOf(policy, elem).value))
    ensures FloatsFit(py, v, TList(elem)) ==> Coerce(py, v, TList(elem)).Some?
    ensures NoUnion(elem) && Coerce(py, v, TList(elem)).Some? ==> FloatsFit(py, v, TList(elem))
    decreases elem, 2
  {
    hide CoerceEnum, CoerceLiteral, PyEq, JsonEq;
    forall i | 0 <= i < |v.items|
      ensures FloatsFit(py, v.items[i], elem) ==> Coerce(py, v.items[i], elem).Some?
      ensures NoUnion(elem) && Coerce(py, v.items[i], elem).Some? ==> FloatsFit(py, v.items[i], elem)
    {
      SchemaIsAccepted(py, policy, v.items[i], elem);
    }
  }

  lemma {:induction false} DictIsAccepted(py: Python, policy: EnumPolicy, v: Value, value: Type)
    requires SmallEnums(policy, value) && SchemaOf(policy, value).Some? && ValidFor(v, SObject(SchemaOf(policy, value).value))
    ensures FloatsFit(py, v, TDict(value)) ==> Coerce(py, v, TDict(value)).Some?
    ensures NoUnion(value) && Coerce(py, v, TDict(value)).Some? ==> FloatsFit(py, v, TDict(value))
    decreases value, 2
  {
    hide CoerceEnum, CoerceLiteral, PyEq, JsonEq;
    forall k <- v.entries
      ensures FloatsFit(py, v.entries[k], value) ==> Coerce(py, v.entries[k], value).Some?
      ensures NoUnion(value) && Coerce(py, v.entries[k], value).Some? ==> FloatsFit(py, v.entries[k], value)
    {
      SchemaIsAccepted(py, policy, v.entries[k], value);
    }
  }

  lemma LiteralIsAccepted(py: Python, v: Value, lits: seq<Lit>)
    requires exists i :: 0 <= i < |lits| && JsonEq(v, lits[i])
    ensures CoerceLiteral(py, v, lits).Some?
  {
    var i :| 0 <= i < |lits| && JsonEq(v, lits[i]);
    JsonEqIsPyEq(v, lits[i]);
  }

  lemma EnumIsAccepted(py: Python, policy: EnumPolicy, v: Value, t: Type)
    requires t.TEnum? && SmallEnums(policy, t) && SchemaOf(policy, t).Some? && ValidFor(v, SchemaOf(policy, t).value)
    ensures CoerceEnum(py, v, t.name, t.members).Some?
  {
    var i :| 0 <= i < |t.members| && JsonEq(v, SchemaOf(policy, t).value.values[i]);
    JsonEqIsPyEq(v, t.members[i].value);
    var test := (m: Member) => PyEq(v, m.value);
    assert test(t.members[i]);
  }

  lemma {:induction false} UnionSchemaIsAccepted(py: Python, policy: EnumPolicy, v: Value, options: seq<Type>)
    requires var t := TUnion(options);
             && SmallEnums(policy, t) && SchemaOf(policy, t).Some? && ValidFor(v, SchemaOf(policy, t).value)
             && FloatsFit(py, v, t)
    ensures CoerceUnion(py, v, options).Some?
    decreases options, 0
  {
    var named := NotNone(options);
    var i: nat;
    if |named| == 1 && TNone in options {
      NotNoneMembers(options);
      assert named[0] in options;
      i :| i < |options| && options[i] == named[0];
      assert named[0] in named;
    } else {
      i :| i < |options| && ValidFor(v, SchemaOf(policy, TUnion(options)).value.options[i]);
    }
    SchemaIsAccepted(py, policy, v, options[i]);
    UnionAccepts(py, v, options, i);
  }

  /** An integer beyond the floats is a valid number and no float. */
  lemma HugeNumberIsRefused(py: Python, policy: EnumPolicy, i: int)
    requires py.floatOfInt(i).None?
    ensures ValidFor(VInt(i), SchemaOf(policy, TFloat).value) && Coerce(py, VInt(i), TFloat).None?
  {
  }
}
