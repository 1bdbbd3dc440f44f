/** The derive half: `#[derive(EnumState)]`, over abstract syntax.

    The macro reads an enum declaration and its attributes, checks that every
    variant with fields can be given a representative value, and builds the
    `EnumState` implementation: the name and value tables, `_FIRST`, `_LAST`,
    `_DEFAULT`, `_SIZE` and the `index`/`name` match arms. Token streams are
    kept as opaque token sequences and the implementation as a record. */
module EnumCyclesDerive {
  import opened Wrappers
  import EnumCycles

  /** A source location that diagnostics are reported at. */
  type Span = nat
  /** One token of an attribute's argument, kept verbatim. */
  type Token = string
  type Ident = string
  /** The written type of a variant's field. */
  type TypeName = string

  /** An attribute: its path when that path is a single identifier (`None`
      for a path like `a::b`), and the tokens after the path. */
  datatype Attribute = Attribute(path: Option<Ident>, tokens: seq<Token>, span: Span)

  datatype Variant = Variant(ident: Ident, fields: seq<TypeName>, attrs: seq<Attribute>, span: Span)

  datatype Data = Struct | Enum(variants: seq<Variant>) | Union

  /** The parsed item the derive is applied to. */
  datatype DeriveInput = DeriveInput(ident: Ident, attrs: seq<Attribute>, data: Data, span: Span)

  /** The attributes the macro supports. */
  datatype AttributeType = Default(tokens: seq<Token>) | Auto | First | Last

  /** What can go wrong when reading an attribute; `NoneFound` means only
      that the attribute is not one of this macro's. */
  datatype AttributeParseError = InvalidPath(span: Span) | MissingDefault(span: Span) | NoneFound

  type AttrResult = Result<AttributeType, AttributeParseError>

  /** A `compile_error!` the macro emits instead of an implementation. */
  datatype Diagnostic = Diagnostic(span: Span, message: string)

  const NotAnEnumMessage := "EnumState can only be derived from enum variants."
  const InvalidPathMessage := "Invalid path syntax."
  const MissingArgumentMessage := "Missing argument."
  const NonUnitMessage := "Default values must be defined for non-unit types."

  /** A constant taken from a field type's own `EnumState` implementation. */
  datatype FieldConst = FirstOf(ty: TypeName) | LastOf(ty: TypeName) | DefaultOf(ty: TypeName)

  /** The representative value of one variant:
      `Parent::Name`, `Parent::Name<tokens>`, or `Parent::Name(c1, ..., cn)`. */
  datatype Ctor =
    | Unit(parent: Ident, name: Ident)
    | Explicit(parent: Ident, name: Ident, tokens: seq<Token>)
    | PerField(parent: Ident, name: Ident, consts: seq<FieldConst>)

  /** An expression emitted as a constant: verbatim tokens or a constructor. */
  datatype Expr = Verbatim(tokens: seq<Token>) | Construct(ctor: Ctor)

  /** A match pattern over one variant: `Parent::Name`, or
      `Parent::Name(_, ..., _)` with `wildcards` underscores. */
  datatype Pattern = UnitPattern(parent: Ident, name: Ident) | TuplePattern(parent: Ident, name: Ident, wildcards: nat)

  datatype Arm<R> = Arm(pattern: Pattern, result: R)

  /** The generated `impl EnumState for Name`. */
  datatype Impl = Impl(
    ident: Ident,
    names: seq<string>,
    values: seq<Ctor>,
    default: Expr,
    first: Ctor,
    last: Ctor,
    size: nat,
    indexMap: seq<Arm<nat>>,
    nameMap: seq<Arm<string>>)

  // ---------------------------------------------------------------------
  // Classifying attributes
  // ---------------------------------------------------------------------

  /** The attribute names the macro registers as its own. */
  const Supported: set<string> := {"default", "auto", "first", "last"}

  /** `AttributeType::try_from`: reads one attribute. */
  function TryFrom(attr: Attribute): (r: AttrResult)
    ensures r == Err(InvalidPath(attr.span)) <==> attr.path.None?
    ensures r == Err(NoneFound) <==> attr.path.Some? && attr.path.value !in Supported
    ensures r == Err(MissingDefault(attr.span)) <==> attr.path == Some("default") && attr.tokens == []
    ensures r.Ok? <==> attr.path.Some? && attr.path.value in Supported && !(attr.path.value == "default" && attr.tokens == [])
    ensures r.Ok? ==> (r.value.Default? <==> attr.path == Some("default"))
    ensures r.Ok? && r.value.Default? ==> r.value.tokens == attr.tokens != []
    ensures r == Ok(Auto) <==> attr.path == Some("auto")
    ensures r == Ok(First) <==> attr.path == Some("first")
    ensures r == Ok(Last) <==> attr.path == Some("last")
  {
    match attr.path
    case None => Err(InvalidPath(attr.span))
    case Some(p) =>
      if p == "default" then
        if attr.tokens == [] then Err(MissingDefault(attr.span)) else Ok(Default(attr.tokens))
      else if p == "auto" then Ok(Auto)
      else if p == "first" then Ok(First)
      else if p == "last" then Ok(Last)
      else Err(NoneFound)
  }

  /** `AttributeType::get_first`: the outcome of the first attribute that is
      one of the macro's (errors included), or `NoneFound`. */
  function GetFirst(attrs: seq<Attribute>): (r: AttrResult)
    ensures r == Err(NoneFound) <==> forall i :: 0 <= i < |attrs| ==> TryFrom(attrs[i]) == Err(NoneFound)
    ensures r != Err(NoneFound) ==>
      exists i :: 0 <= i < |attrs| && TryFrom(attrs[i]) == r
        && forall j :: 0 <= j < i ==> TryFrom(attrs[j]) == Err(NoneFound)
  {
    if attrs == [] then Err(NoneFound)
    else
      var r := TryFrom(attrs[0]);
      if r == Err(NoneFound) then
        var rest := GetFirst(attrs[1..]);
        assert forall i :: 0 < i < |attrs| ==> attrs[i] == attrs[1..][i - 1];
        rest
      else r
  }

  /** Top-level outcomes that `get_attr_type` passes over: attributes that are
      not the macro's, and a top-level `default`, which picks the enum's
      default rather than shaping variants. */
  predicate PassedOver(r: AttrResult) {
    r == Err(NoneFound) || (r.Ok? && r.value.Default?)
  }

  /** The top-level loop of `get_attr_type`: the first top-level outcome that
      is not passed over, or `NoneFound`. */
  function FirstTopLevel(attrs: seq<Attribute>): (r: AttrResult)
    ensures r == Err(NoneFound) <==> forall i :: 0 <= i < |attrs| ==> PassedOver(TryFrom(attrs[i]))
    ensures r != Err(NoneFound) ==>
      exists i :: 0 <= i < |attrs| && TryFrom(attrs[i]) == r
        && forall j :: 0 <= j < i ==> PassedOver(TryFrom(attrs[j]))
    ensures !(r.Ok? && r.value.Default?)
  {
    if attrs == [] then Err(NoneFound)
    else
      var r := TryFrom(attrs[0]);
      if PassedOver(r) then
        var rest := FirstTopLevel(attrs[1..]);
        assert forall i :: 0 < i < |attrs| ==> attrs[i] == attrs[1..][i - 1];
        rest
      else r
  }

  /** `get_attr_type`: the attribute that decides how variant `v` is built —
      its own first recognised attribute, else the enum's. */
  function GetAttrType(ast: DeriveInput, v: Variant): (r: AttrResult)
    ensures GetFirst(v.attrs) != Err(NoneFound) ==> r == GetFirst(v.attrs)
    ensures GetFirst(v.attrs) == Err(NoneFound) ==> r == FirstTopLevel(ast.attrs)
    ensures r == Err(NoneFound) <==>
      (forall i :: 0 <= i < |v.attrs| ==> TryFrom(v.attrs[i]) == Err(NoneFound))
      && (forall j :: 0 <= j < |ast.attrs| ==> PassedOver(TryFrom(ast.attrs[j])))
    ensures r.Ok? && r.value.Default? ==> exists i :: 0 <= i < |v.attrs| && TryFrom(v.attrs[i]) == r
  {
    var own := GetFirst(v.attrs);
    if own != Err(NoneFound) then own else FirstTopLevel(ast.attrs)
  }

  /** `AttributeParseError::get_message`: the diagnostic for an error found on
      variant `v`; `NoneFound` is reported at the variant itself. */
  function GetMessage(e: AttributeParseError, d: Span): (r: Diagnostic)
    ensures e.InvalidPath? ==> r == Diagnostic(e.span, InvalidPathMessage)
    ensures e.MissingDefault? ==> r == Diagnostic(e.span, MissingArgumentMessage)
    ensures e.NoneFound? ==> r == Diagnostic(d, NonUnitMessage)
  {
    match e
    case InvalidPath(s) => Diagnostic(s, InvalidPathMessage)
    case MissingDefault(s) => Diagnostic(s, MissingArgumentMessage)
    case NoneFound => Diagnostic(d, NonUnitMessage)
  }

  // ---------------------------------------------------------------------
  // Validation
  // ---------------------------------------------------------------------

  /** A variant passes validation: its attribute resolves, or nothing is
      found and it has no fields to fill. */
  predicate Resolves(ast: DeriveInput, v: Variant)
    ensures Resolves(ast, v) ==> Constructible(ast, v)
  {
    var t := GetAttrType(ast, v);
    t.Ok? || (t == Err(NoneFound) && v.fields == [])
  }

  /** A variant `get_constructor` can build without panicking: one with
      fields must have a resolved attribute to unwrap. */
  predicate Constructible(ast: DeriveInput, v: Variant) {
    v.fields != [] ==> GetAttrType(ast, v).Ok?
  }

  /** `validate_enum`: succeeds iff every variant resolves; otherwise reports
      the first variant, in declaration order, that does not. */
  function ValidateEnum(ast: DeriveInput, variants: seq<Variant>): (r: Result<(), Diagnostic>)
    ensures r.Ok? <==> forall i :: 0 <= i < |variants| ==> Resolves(ast, variants[i])
    ensures r.Err? ==>
      exists i :: 0 <= i < |variants| && !Resolves(ast, variants[i])
        && (forall j :: 0 <= j < i ==> Resolves(ast, variants[j]))
        && r.error == GetMessage(GetAttrType(ast, variants[i]).error, variants[i].span)
  {
    if variants == [] then Ok(())
    else
      var v := variants[0];
      var t := GetAttrType(ast, v);
      if t.Err? && !(t.error == NoneFound && v.fields == []) then
        Err(GetMessage(t.error, v.span))
      else
        var rest := ValidateEnum(ast, variants[1..]);
        assert forall i :: 0 < i < |variants| ==> variants[i] == variants[1..][i - 1];
        rest
  }

  // ---------------------------------------------------------------------
  // Building the implementation
  // ---------------------------------------------------------------------

  /** The name of the variant a constructor builds. */
  function CtorName(c: Ctor): Ident {
    match c
    case Unit(_, n) => n
    case Explicit(_, n, _) => n
    case PerField(_, n, _) => n
  }

  /** `get_constant`: the constant for one field under attribute `attr`. */
  function GetConstant(ty: TypeName, attr: AttributeType): (r: FieldConst)
    ensures r.ty == ty
    ensures r.FirstOf? <==> attr.First?
    ensures r.LastOf? <==> attr.Last?
    ensures r.DefaultOf? <==> attr.Auto? || attr.Default?
  {
    match attr
    case First => FirstOf(ty)
    case Last => LastOf(ty)
    case _ => DefaultOf(ty)
  }

  /** `get_constructor`: the representative value of variant `v`. The source
      unwraps the resolved attribute of a variant with fields, so such a
      variant must resolve to `Ok`, which validation guarantees. */
  function GetConstructor(ast: DeriveInput, v: Variant): (r: Ctor)
    requires Constructible(ast, v)
    ensures r.parent == ast.ident && CtorName(r) == v.ident
    ensures v.fields == [] <==> r.Unit?
    ensures r.Explicit? <==> v.fields != [] && GetAttrType(ast, v).value.Default?
    ensures r.Explicit? ==> r.tokens == GetAttrType(ast, v).value.tokens
    ensures r.PerField? ==>
      |r.consts| == |v.fields|
      && forall i :: 0 <= i < |r.consts| ==> r.consts[i] == GetConstant(v.fields[i], GetAttrType(ast, v).value)
  {
    if v.fields == [] then Unit(ast.ident, v.ident)
    else
      match GetAttrType(ast, v).value
      case Default(tokens) => Explicit(ast.ident, v.ident, tokens)
      case a => PerField(ast.ident, v.ident, seq(|v.fields|, i requires 0 <= i < |v.fields| => GetConstant(v.fields[i], a)))
  }

  /** The `_NAMES` half of `get_arrays`: each variant's identifier, in order. */
  function VariantNames(variants: seq<Variant>): (r: seq<string>)
    ensures |r| == |variants|
    ensures forall i :: 0 <= i < |variants| ==> r[i] == variants[i].ident
  {
    if variants == [] then []
    else [variants[0].ident] + VariantNames(variants[1..])
  }

  /** The `_VALUES` half of `get_arrays`: each variant's representative value, in order. */
  function VariantValues(ast: DeriveInput, variants: seq<Variant>): (r: seq<Ctor>)
    requires forall i :: 0 <= i < |variants| ==> Constructible(ast, variants[i])
    ensures |r| == |variants|
    ensures forall i :: 0 <= i < |variants| ==> r[i] == GetConstructor(ast, variants[i])
  {
    if variants == [] then []
    else [GetConstructor(ast, variants[0])] + VariantValues(ast, variants[1..])
  }

  /** `get_arrays`: the `_NAMES` and `_VALUES` tables, one entry per variant. */
  function GetArrays(ast: DeriveInput, variants: seq<Variant>): (r: (seq<string>, seq<Ctor>))
    requires forall i :: 0 <= i < |variants| ==> Constructible(ast, variants[i])
    ensures |r.0| == |variants| && |r.1| == |variants|
    ensures forall i :: 0 <= i < |variants| ==>
      r.0[i] == variants[i].ident && r.1[i] == GetConstructor(ast, variants[i])
    ensures forall i :: 0 <= i < |variants| ==> r.1[i].parent == ast.ident && CtorName(r.1[i]) == r.0[i]
  {
    (VariantNames(variants), VariantValues(ast, variants))
  }

  /** `get_ends`: the first and the last value. The source unwraps both, so
      the table must not be empty. */
  function GetEnds(values: seq<Ctor>): (r: (Ctor, Ctor))
    requires |values| >= 1
    ensures r.0 == values[0] && r.1 == values[|values| - 1]
  {
    (values[0], values[|values| - 1])
  }

  /** An `Ok(Default(_))` outcome. */
  predicate IsDefault(r: AttrResult) {
    r.Ok? && r.value.Default?
  }

  /** No top-level attribute classifies as `Ok(Default(_))`. */
  predicate NoDefault(attrs: seq<Attribute>) {
    forall i :: 0 <= i < |attrs| ==> !IsDefault(TryFrom(attrs[i]))
  }

  /** Attribute `i` is the first one that classifies as `Ok(Default(_))`. */
  predicate FirstDefaultAt(attrs: seq<Attribute>, i: nat) {
    i < |attrs| && IsDefault(TryFrom(attrs[i]))
    && forall j :: 0 <= j < i ==> !IsDefault(TryFrom(attrs[j]))
  }

  /** Past a leading attribute that is not a `default`, the first `default`
      of the list is the first `default` of its tail. */
  lemma FirstDefaultShift(attrs: seq<Attribute>)
    requires |attrs| >= 1 && !IsDefault(TryFrom(attrs[0]))
    ensures NoDefault(attrs) ==> NoDefault(attrs[1..])
    ensures forall i: nat :: 0 < i && FirstDefaultAt(attrs, i) ==> FirstDefaultAt(attrs[1..], i - 1)
  {
    assert forall i :: 0 < i < |attrs| ==> attrs[i] == attrs[1..][i - 1];
  }

  /** `get_default`: the tokens of the first top-level `default` attribute,
      else `dflt` (the first value). */
  function GetDefault(attrs: seq<Attribute>, dflt: Expr): (r: Expr)
    ensures NoDefault(attrs) ==> r == dflt
    ensures forall i: nat :: FirstDefaultAt(attrs, i) ==> r == Verbatim(attrs[i].tokens)
  {
    if attrs == [] then dflt
    else
      var r := TryFrom(attrs[0]);
      if IsDefault(r) then Verbatim(r.value.tokens)
      else
        FirstDefaultShift(attrs);
        GetDefault(attrs[1..], dflt)
  }

  /** `get_map`: a match arm for variant `v` that ignores its fields and
      yields `t`. */
  function GetMap<R>(v: Variant, parent: Ident, t: R): (r: Arm<R>)
    ensures r.result == t
    ensures r.pattern.parent == parent && r.pattern.name == v.ident
    ensures r.pattern.UnitPattern? <==> v.fields == []
    ensures r.pattern.TuplePattern? ==> r.pattern.wildcards == |v.fields| >= 1
  {
    if v.fields == [] then Arm(UnitPattern(parent, v.ident), t)
    else Arm(TuplePattern(parent, v.ident, |v.fields|), t)
  }

  /** `get_index_map`: the arms of the generated `index`. */
  function GetIndexMap(ast: DeriveInput, variants: seq<Variant>): (r: seq<Arm<nat>>)
    ensures |r| == |variants|
    ensures forall i :: 0 <= i < |r| ==> r[i] == GetMap(variants[i], ast.ident, i)
  {
    seq(|variants|, i requires 0 <= i < |variants| => GetMap(variants[i], ast.ident, i))
  }

  /** `get_name_map`: the arms of the generated `name`. */
  function GetNameMap(ast: DeriveInput, variants: seq<Variant>): (r: seq<Arm<string>>)
    ensures |r| == |variants|
    ensures forall i :: 0 <= i < |r| ==> r[i] == GetMap(variants[i], ast.ident, variants[i].ident)
  {
    seq(|variants|, i requires 0 <= i < |variants| => GetMap(variants[i], ast.ident, variants[i].ident))
  }

  /** `impl_enum_cycle`: assembles the implementation of a validated,
      non-empty enum. */
  function ImplEnumCycle(ast: DeriveInput, variants: seq<Variant>): (r: Impl)
    requires |variants| >= 1
    requires forall i :: 0 <= i < |variants| ==> Constructible(ast, variants[i])
    ensures r.ident == ast.ident
    ensures r.size == |variants| == |r.names| == |r.values|
    ensures r.first == r.values[0] && r.last == r.values[|variants| - 1]
    ensures r.default == GetDefault(ast.attrs, Construct(r.first))
    ensures |r.indexMap| == r.size && |r.nameMap| == r.size
  {
    var arrays := GetArrays(ast, variants);
    var ends := GetEnds(arrays.1);
    var default := GetDefault(ast.attrs, Construct(ends.0));
    Impl(ast.ident, arrays.0, arrays.1, default, ends.0, ends.1, |variants|,
      GetIndexMap(ast, variants), GetNameMap(ast, variants))
  }

  /** The tables of `impl_enum_cycle`: entry `i` of `_NAMES` and `_VALUES`
      is the name and the representative value of variant `i`. */
  lemma ImplEnumCycleTables(ast: DeriveInput, variants: seq<Variant>)
    requires |variants| >= 1
    requires forall i :: 0 <= i < |variants| ==> Constructible(ast, variants[i])
    ensures var r := ImplEnumCycle(ast, variants);
      forall i :: 0 <= i < |variants| ==>
        r.names[i] == variants[i].ident && r.values[i] == GetConstructor(ast, variants[i])
  {
  }

  /** The `_DEFAULT` of `impl_enum_cycle`: the first top-level `default(..)`,
      or else `_FIRST`. */
  lemma ImplEnumCycleDefault(ast: DeriveInput, variants: seq<Variant>)
    requires |variants| >= 1
    requires forall i :: 0 <= i < |variants| ==> Constructible(ast, variants[i])
    ensures var r := ImplEnumCycle(ast, variants);
      (NoDefault(ast.attrs) ==> r.default == Construct(r.first))
      && forall i: nat :: FirstDefaultAt(ast.attrs, i) ==> r.default == Verbatim(ast.attrs[i].tokens)
  {
  }

  /** The `index` and `name` arms of `impl_enum_cycle`: arm `i` yields `i`
      and the name of variant `i`. */
  lemma ImplEnumCycleArms(ast: DeriveInput, variants: seq<Variant>)
    requires |variants| >= 1
    requires forall i :: 0 <= i < |variants| ==> Constructible(ast, variants[i])
    ensures var r := ImplEnumCycle(ast, variants);
      forall i :: 0 <= i < r.size ==> r.indexMap[i].result == i && r.nameMap[i].result == r.names[i]
  {
  }

  /** `derive_enum_cycle`, after parsing: an implementation, or the
      diagnostic the macro emits instead. */
  function DeriveEnumCycle(ast: DeriveInput): (r: Result<Impl, Diagnostic>)
    requires ast.data.Enum? ==> |ast.data.variants| >= 1
    ensures !ast.data.Enum? ==> r == Err(Diagnostic(ast.span, NotAnEnumMessage))
    ensures ast.data.Enum? ==>
      (r.Ok? <==> forall i :: 0 <= i < |ast.data.variants| ==> Resolves(ast, ast.data.variants[i]))
    ensures ast.data.Enum? && r.Err? ==> r.error == ValidateEnum(ast, ast.data.variants).error
    ensures r.Ok? ==> ast.data.Enum? && r.value == ImplEnumCycle(ast, ast.data.variants)
  {
    match ast.data
    case Enum(variants) =>
      var v := ValidateEnum(ast, variants);
      if v.Err? then Err(v.error) else Ok(ImplEnumCycle(ast, variants))
    case _ => Err(Diagnostic(ast.span, NotAnEnumMessage))
  }

  // ---------------------------------------------------------------------
  // Properties of the generated implementation
  // ---------------------------------------------------------------------

  /** A pattern matches every value of the variant it names, whatever its fields. */
  predicate Matches(p: Pattern, c: Ctor) {
    p.parent == c.parent && p.name == CtorName(c)
  }

  /** Evaluates a `match` over `arms`: the result of the first arm whose
      pattern matches `c`. */
  function Dispatch<R>(arms: seq<Arm<R>>, c: Ctor): Option<R> {
    if arms == [] then None
    else if Matches(arms[0].pattern, c) then Some(arms[0].result)
    else Dispatch(arms[1..], c)
  }

  /** A value reaches arm `k` when that arm matches it and no earlier one does. */
  lemma {:induction false} DispatchReaches<R>(arms: seq<Arm<R>>, c: Ctor, k: nat)
    requires k < |arms| && Matches(arms[k].pattern, c)
    requires forall j :: 0 <= j < k ==> !Matches(arms[j].pattern, c)
    ensures Dispatch(arms, c) == Some(arms[k].result)
  {
    if k > 0 {
      DispatchReaches(arms[1..], c, k - 1);
    }
  }

  /** Variant names are distinct, as the compiler requires of an enum. */
  predicate DistinctNames(variants: seq<Variant>) {
    forall i, j :: 0 <= i < j < |variants| ==> variants[i].ident != variants[j].ident
  }

  /** Arms built one per variant, in order, send a value of variant `i` to
      arm `i` when variant names are distinct. */
  lemma ArmsReach<R>(arms: seq<Arm<R>>, variants: seq<Variant>, c: Ctor, i: nat)
    requires DistinctNames(variants) && |arms| == |variants| && i < |variants|
    requires forall j :: 0 <= j < |arms| ==>
      arms[j].pattern.parent == c.parent && arms[j].pattern.name == variants[j].ident
    requires CtorName(c) == variants[i].ident
    ensures Dispatch(arms, c) == Some(arms[i].result)
  {
    forall j | 0 <= j < i ensures !Matches(arms[j].pattern, c) {
      assert arms[j].pattern.name == variants[j].ident != variants[i].ident;
    }
    DispatchReaches(arms, c, i);
  }

  /** The generated `index` and `name` send each listed value back to its
      position and its name: the dispatch tables invert `_VALUES`. */
  lemma DispatchInvertsTables(ast: DeriveInput, variants: seq<Variant>, i: nat)
    requires |variants| >= 1 && DistinctNames(variants)
    requires forall k :: 0 <= k < |variants| ==> Constructible(ast, variants[k])
    requires i < |variants|
    ensures Dispatch(ImplEnumCycle(ast, variants).indexMap, ImplEnumCycle(ast, variants).values[i]) == Some(i)
    ensures Dispatch(ImplEnumCycle(ast, variants).nameMap, ImplEnumCycle(ast, variants).values[i])
      == Some(ImplEnumCycle(ast, variants).names[i])
  {
    var m := ImplEnumCycle(ast, variants);
    ImplEnumCycleTables(ast, variants);
    ImplEnumCycleArms(ast, variants);
    var c := m.values[i];
    assert c.parent == ast.ident && CtorName(c) == variants[i].ident;
    var indexMap := GetIndexMap(ast, variants);
    var nameMap := GetNameMap(ast, variants);
    assert m.indexMap == indexMap && m.nameMap == nameMap;
    forall j | 0 <= j < |variants|
      ensures indexMap[j].pattern.parent == c.parent && indexMap[j].pattern.name == variants[j].ident
      ensures nameMap[j].pattern.parent == c.parent && nameMap[j].pattern.name == variants[j].ident
    {
      assert indexMap[j] == GetMap(variants[j], ast.ident, j);
      assert nameMap[j] == GetMap(variants[j], ast.ident, variants[j].ident);
    }
    ArmsReach(indexMap, variants, c, i);
    ArmsReach(nameMap, variants, c, i);
  }

  /** The constants of a generated implementation as the runtime sees them. */
  function AsTable(m: Impl): EnumCycles.Table<Expr> {
    EnumCycles.Table(m.names, Constructs(m.values), m.default, Construct(m.first), Construct(m.last), m.size)
  }

  /** Each constructor as an emitted expression, in order. */
  function Constructs(cs: seq<Ctor>): (r: seq<Expr>)
    ensures |r| == |cs|
    ensures forall i :: 0 <= i < |cs| ==> r[i] == Construct(cs[i])
  {
    if cs == [] then [] else [Construct(cs[0])] + Constructs(cs[1..])
  }

  /** The generated `index`, read on constants: a constructor goes through the
      index arms; verbatim tokens are not interpreted here. */
  function IndexOf(m: Impl): Expr -> nat {
    (e: Expr) => if e.Construct? && Dispatch(m.indexMap, e.ctor).Some? then Dispatch(m.indexMap, e.ctor).value else 0
  }

  /** A derived implementation meets everything the runtime's `skip` and
      `skip_backward` rely on: the table invariant, and an `index` that
      inverts `_VALUES`. */
  lemma GeneratedTableIsValid(ast: DeriveInput, m: Impl)
    requires ast.data.Enum? && |ast.data.variants| >= 1 && DistinctNames(ast.data.variants)
    requires DeriveEnumCycle(ast) == Ok(m)
    ensures AsTable(m).Valid()
    ensures EnumCycles.IndexConsistent(AsTable(m), IndexOf(m))
  {
    ImplTableIsValid(ast, ast.data.variants);
  }

  /** The table half of `GeneratedTableIsValid`, for `impl_enum_cycle` itself. */
  lemma ImplTableIsValid(ast: DeriveInput, variants: seq<Variant>)
    requires |variants| >= 1 && DistinctNames(variants)
    requires forall k :: 0 <= k < |variants| ==> Constructible(ast, variants[k])
    ensures AsTable(ImplEnumCycle(ast, variants)).Valid()
    ensures EnumCycles.IndexConsistent(AsTable(ImplEnumCycle(ast, variants)), IndexOf(ImplEnumCycle(ast, variants)))
  {
    var m := ImplEnumCycle(ast, variants);
    TableShape(m);
    forall i | 0 <= i < |m.values| ensures Dispatch(m.indexMap, m.values[i]) == Some(i) {
      DispatchInvertsTables(ast, variants, i);
    }
    TableIndex(m);
  }

  /** The constants of an implementation whose tables line up form a valid table. */
  lemma TableShape(m: Impl)
    requires m.size >= 1 && |m.names| == m.size && |m.values| == m.size
    requires m.first == m.values[0] && m.last == m.values[m.size - 1]
    ensures AsTable(m).Valid()
  {
  }

  /** An `index` arm table that sends every value to its own position
      makes `IndexOf` invert `_VALUES`. */
  lemma TableIndex(m: Impl)
    requires forall i :: 0 <= i < |m.values| ==> Dispatch(m.indexMap, m.values[i]) == Some(i)
    ensures EnumCycles.IndexConsistent(AsTable(m), IndexOf(m))
  {
  }

  /** A top-level `default` never shapes a variant: inserting one anywhere in
      the enum's attributes leaves the top-level lookup unchanged. */
  lemma TopLevelDefaultIgnored(pre: seq<Attribute>, d: Attribute, post: seq<Attribute>)
    requires IsDefault(TryFrom(d))
    ensures FirstTopLevel(pre + [d] + post) == FirstTopLevel(pre + post)
  {
    FirstTopLevelAppend(pre + [d], post);
    FirstTopLevelAppend(pre, [d]);
    FirstTopLevelAppend(pre, post);
    FirstTopLevelCons(d, []);
    assert [d] + [] == [d];
  }

  /** The top-level loop over two lists one after the other: the outcome of
      the first list, unless it finds nothing, then that of the second. */
  lemma {:induction false} FirstTopLevelAppend(a: seq<Attribute>, b: seq<Attribute>)
    ensures FirstTopLevel(a + b) ==
      if FirstTopLevel(a) == Err(NoneFound) then FirstTopLevel(b) else FirstTopLevel(a)
  {
    if a == [] {
      assert a + b == b;
    } else {
      FirstTopLevelAppend(a[1..], b);
      FirstTopLevelCons(a[0], a[1..] + b);
      FirstTopLevelCons(a[0], a[1..]);
      SplitHead(a, b);
    }
  }

  /** A non-empty list is its head followed by its tail, also in front of `b`. */
  lemma SplitHead<T>(a: seq<T>, b: seq<T>)
    requires |a| >= 1
    ensures a == [a[0]] + a[1..]
    ensures a + b == [a[0]] + (a[1..] + b)
  {
    assert a + b == [a[0]] + a[1..] + b;
  }

  /** One step of the top-level loop. */
  lemma FirstTopLevelCons(a: Attribute, rest: seq<Attribute>)
    ensures FirstTopLevel([a] + rest) == if PassedOver(TryFrom(a)) then FirstTopLevel(rest) else TryFrom(a)
  {
    assert ([a] + rest)[0] == a;
    assert ([a] + rest)[1..] == rest;
  }

  /** An erroneous top-level attribute met before any usable one (a path such
      as `a::b`, or an empty `default`) fails validation as soon as one
      variant has no attribute of its own, even a variant without fields. */
  lemma TopLevelErrorFailsValidation(ast: DeriveInput, variants: seq<Variant>, k: nat)
    requires FirstTopLevel(ast.attrs).Err? && FirstTopLevel(ast.attrs) != Err(NoneFound)
    requires k < |variants| && GetFirst(variants[k].attrs) == Err(NoneFound)
    ensures ValidateEnum(ast, variants).Err?
  {
    assert !Resolves(ast, variants[k]);
  }
}
