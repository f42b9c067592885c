/**
 Message schemas: files that include one another, the types they declare under namespaces, and references that are
 looked up from the inside of a namespace outwards.
 */
module SchemaModel {
  import opened Wrappers

  // ---------------------------------------------------------------- files

  /** A type expression in a file; names are split at the dots. */
  datatype AstField = AstBasic | AstVector(elem: AstField) | AstCustom(name: seq<string>)

  datatype Top =
    | Include(file: string)
    | Namespace(parts: seq<string>)
    | DeclareEnum(name: seq<string>)
    | DeclareUnion(name: seq<string>, values: seq<seq<string>>)
    | DeclareTable(name: seq<string>, fields: seq<AstField>)
    | RootType(name: seq<string>)
    | Attribute

  /** The files there are; None stands for one that does not parse. */
  type Files = map<string, Option<seq<Top>>>

  ghost predicate Includes(fs: Files, f: string, g: string) {
    f in fs && fs[f].Some? && Include(g) in fs[f].value
  }

  ghost predicate ClosedUnderIncludes(fs: Files, s: set<string>) {
    forall f, g | f in s && Includes(fs, f, g) :: g in s
  }

  /** What can be reached from root: part of every closed set that has it. */
  ghost predicate Reached(fs: Files, root: string, f: string) {
    forall s: set<string> | ClosedUnderIncludes(fs, s) && root in s :: f in s
  }

  // ---------------------------------------------------------------- types

  datatype TypeRef = TypeRef(input: seq<string>, ns: seq<string>, resolved: seq<string>)

  datatype FieldType = Basic | Vector(elem: FieldType) | Custom(ref: TypeRef)

  datatype Kind = EnumType | UnionType(values: seq<TypeRef>) | TableType(fields: seq<FieldType>)

  datatype SchemaType = SchemaType(file: string, fqtn: seq<string>, kind: Kind, usedInUnion: bool, usedInTable: bool)

  type Types = map<string, SchemaType>

  /** Joined with dots. */
  function Join(parts: seq<string>): string {
    if |parts| == 0 then "" else if |parts| == 1 then parts[0] else parts[0] + "." + Join(parts[1..])
  }

  // ---------------------------------------------------------------- extraction

  function Unresolved(ns: seq<string>, name: seq<string>): TypeRef {
    TypeRef(name, ns, [])
  }

  function ExtractField(ns: seq<string>, f: AstField): FieldType {
    match f
    case AstBasic => Basic
    case AstVector(elem) => Vector(ExtractField(ns, elem))
    case AstCustom(name) => Custom(Unresolved(ns, name))
  }

  function ExtractFields(ns: seq<string>, fields: seq<AstField>): seq<FieldType> {
    seq(|fields|, i requires 0 <= i < |fields| => ExtractField(ns, fields[i]))
  }

  function ExtractValues(ns: seq<string>, values: seq<seq<string>>): seq<TypeRef> {
    seq(|values|, i requires 0 <= i < |values| => Unresolved(ns, values[i]))
  }

  /** The namespace in force behind the first n elements. */
  function NamespaceAt(ast: seq<Top>, n: nat): seq<string>
    requires n <= |ast|
  {
    if n == 0 then [] else if ast[n - 1].Namespace? then ast[n - 1].parts else NamespaceAt(ast, n - 1)
  }

  predicate Declares(e: Top) {
    e.DeclareEnum? || e.DeclareUnion? || e.DeclareTable?
  }

  /** The type that element e declares in a namespace. */
  function TypeOf(file: string, ns: seq<string>, e: Top): SchemaType
    requires Declares(e)
  {
    var kind := match e
      case DeclareUnion(_, values) => UnionType(ExtractValues(ns, values))
      case DeclareTable(_, fields) => TableType(ExtractFields(ns, fields))
      case _ => EnumType;
    SchemaType(file, ns + e.name, kind, false, false)
  }

  /** The types that the first n elements of a file declare, in order. */
  function Declared(file: string, ast: seq<Top>, n: nat): seq<SchemaType>
    requires n <= |ast|
  {
    if n == 0 then []
    else
      var last := if Declares(ast[n - 1]) then [TypeOf(file, NamespaceAt(ast, n - 1), ast[n - 1])] else [];
      Declared(file, ast, n - 1) + last
  }

  /** The types of the first n of a list of files. */
  function DeclaredBy(fs: Files, files: seq<string>, n: nat): seq<SchemaType>
    requires n <= |files| && forall i | 0 <= i < |files| :: files[i] in fs && fs[files[i]].Some?
  {
    if n == 0 then []
    else
      var ast := fs[files[n - 1]].value;
      DeclaredBy(fs, files, n - 1) + Declared(files[n - 1], ast, |ast|)
  }

  /** The root type named last in the first n elements. */
  function RootIn(ast: seq<Top>, n: nat): Option<TypeRef>
    requires n <= |ast|
  {
    if n == 0 then None
    else if ast[n - 1].RootType? then Some(Unresolved(NamespaceAt(ast, n - 1), ast[n - 1].name))
    else RootIn(ast, n - 1)
  }

  /** The root type named last in the first n of a list of files. */
  function RootBy(fs: Files, files: seq<string>, n: nat): Option<TypeRef>
    requires n <= |files| && forall i | 0 <= i < |files| :: files[i] in fs && fs[files[i]].Some?
  {
    if n == 0 then None
    else
      var ast := fs[files[n - 1]].value;
      var r := RootIn(ast, |ast|);
      if r.Some? then r else RootBy(fs, files, n - 1)
  }

  function Elements(files: seq<string>): set<string> {
    set f | f in files
  }

  /** The files that are extracted for a file, in order: first those it includes, if not seen before, then itself. */
  function Extraction(fs: Files, file: string, seen: set<string>): (r: seq<string>)
    ensures forall f | f in r :: f in fs && fs[f].Some? && f !in seen
    decreases fs.Keys - seen, 0
  {
    if file in seen || file !in fs || fs[file].None? then []
    else IncludesExtraction(fs, fs[file].value, |fs[file].value|, seen + {file}) + [file]
  }

  /** The files extracted for the first n elements of a file. */
  function IncludesExtraction(fs: Files, ast: seq<Top>, n: nat, seen: set<string>): (r: seq<string>)
    requires n <= |ast|
    ensures forall f | f in r :: f in fs && fs[f].Some? && f !in seen
    decreases fs.Keys - seen, n + 1
  {
    if n == 0 then []
    else
      var r := IncludesExtraction(fs, ast, n - 1, seen);
      assert fs.Keys - (seen + Elements(r)) <= fs.Keys - seen;
      assert fs.Keys - (seen + Elements(r)) == fs.Keys - seen || fs.Keys - (seen + Elements(r)) < fs.Keys - seen;
      if ast[n - 1].Include? then r + Extraction(fs, ast[n - 1].file, seen + Elements(r)) else r
  }

  /** `types` holds exactly the types of the list, each under its joined name, and `order` has these names in order. */
  ghost predicate Holds(types: Types, order: seq<string>, list: seq<SchemaType>) {
    && |order| == |list|
    && (forall i | 0 <= i < |list| :: HoldsAt(types, order[i], list[i]))
    && (forall i, j | 0 <= i < j < |order| :: order[i] != order[j])
    && (forall k | k in types :: k in order)
  }

  /** The types of a list under their joined names. */
  function TypesOf(list: seq<SchemaType>): Types {
    if list == [] then map[] else var t := list[|list| - 1]; TypesOf(list[..|list| - 1])[Join(t.fqtn) := t]
  }

  ghost predicate HoldsAt(types: Types, key: string, t: SchemaType) {
    key == Join(t.fqtn) && key in types && types[key] == t
  }

  // ---------------------------------------------------------------- references

  /** The first k parts of the namespace, then fewer and fewer, are put before the name until that is a known type. */
  function BindFrom(keys: set<string>, ns: seq<string>, input: seq<string>, k: nat): Option<seq<string>>
    requires k <= |ns|
  {
    if Join(ns[..k] + input) in keys then Some(ns[..k] + input)
    else if k == 0 then None
    else BindFrom(keys, ns, input, k - 1)
  }

  function Bind(keys: set<string>, ref: TypeRef): Option<seq<string>> {
    if ref.resolved != [] then Some(ref.resolved) else BindFrom(keys, ref.ns, ref.input, |ref.ns|)
  }

  /** Vectors are unwrapped. */
  function FieldRef(f: FieldType): Option<TypeRef> {
    match f
    case Basic => None
    case Vector(elem) => FieldRef(elem)
    case Custom(ref) => Some(ref)
  }

  function SetFieldRef(f: FieldType, ref: TypeRef): FieldType {
    match f
    case Basic => f
    case Vector(elem) => Vector(SetFieldRef(elem, ref))
    case Custom(_) => Custom(ref)
  }

  /** The values of a union and the fields of a table. */
  function Slots(kind: Kind): nat {
    match kind
    case EnumType => 0
    case UnionType(values) => |values|
    case TableType(fields) => |fields|
  }

  function SlotRef(kind: Kind, j: nat): Option<TypeRef>
    requires j < Slots(kind)
  {
    match kind
    case UnionType(values) => Some(values[j])
    case TableType(fields) => FieldRef(fields[j])
  }

  function SetSlot(kind: Kind, j: nat, ref: TypeRef): Kind
    requires j < Slots(kind)
  {
    match kind
    case UnionType(values) => UnionType(values[j := ref])
    case TableType(fields) => TableType(fields[j := SetFieldRef(fields[j], ref)])
  }

  /** A table that a reference leads to is marked. */
  function Mark(types: Types, fqtn: seq<string>, inUnion: bool): Types {
    var key := Join(fqtn);
    if key in types && types[key].kind.TableType?
    then types[key := if inUnion then types[key].(usedInUnion := true) else types[key].(usedInTable := true)]
    else types
  }

  function SetRef(types: Types, k: string, j: nat, ref: TypeRef): Types
    requires k in types && j < Slots(types[k].kind)
  {
    types[k := types[k].(kind := SetSlot(types[k].kind, j, ref))]
  }

  /** One reference resolved; None if it leads nowhere. */
  function ResolveSlot(types: Types, k: string, j: nat): Option<Types>
    requires k in types && j < Slots(types[k].kind)
  {
    var ref := SlotRef(types[k].kind, j);
    if ref.None? then Some(types)
    else
      var fqtn := Bind(types.Keys, ref.value);
      if fqtn.None? then None
      else Some(Mark(SetRef(types, k, j, ref.value.(resolved := fqtn.value)), fqtn.value, types[k].kind.UnionType?))
  }
}
