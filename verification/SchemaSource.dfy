/**
 What a set of files says, element by element, and what a resolved schema has to be for it.  Nothing here goes through
 the functions by which the schema is read.
 */
module SchemaSource {
  import opened Wrappers
  import opened SchemaModel

  /** A declaration: element `at` of a file, under a namespace. */
  datatype Decl = Decl(file: string, at: nat, ns: seq<string>, name: seq<string>)

  /** The namespace in force at element i is the one named last before it, or none. */
  ghost predicate InNamespace(ast: seq<Top>, i: nat, ns: seq<string>)
    requires i <= |ast|
  {
    || (exists k :: 0 <= k < i && IsLastNamespace(ast, i, k) && ast[k].parts == ns)
    || (ns == [] && forall m | 0 <= m < i :: !ast[m].Namespace?)
  }

  ghost predicate IsLastNamespace(ast: seq<Top>, i: nat, k: nat)
    requires k < i <= |ast|
  {
    ast[k].Namespace? && forall m | k < m < i :: !ast[m].Namespace?
  }

  ghost predicate Names(e: Top, name: seq<string>) {
    match e
    case DeclareEnum(n) => n == name
    case DeclareUnion(n, _) => n == name
    case DeclareTable(n, _) => n == name
    case _ => false
  }

  /** A declaration in a file that can be reached. */
  ghost predicate IsDecl(fs: Files, root: string, d: Decl) {
    && Reached(fs, root, d.file) && d.file in fs && fs[d.file].Some? && d.at < |fs[d.file].value|
    && InNamespace(fs[d.file].value, d.at, d.ns) && Names(fs[d.file].value[d.at], d.name)
  }

  function ElementOf(fs: Files, d: Decl): Top
    requires d.file in fs && fs[d.file].Some? && d.at < |fs[d.file].value|
  {
    fs[d.file].value[d.at]
  }

  function KeyOf(d: Decl): string {
    Join(d.ns + d.name)
  }

  ghost predicate IsKey(fs: Files, root: string, key: string) {
    exists d :: IsDecl(fs, root, d) && KeyOf(d) == key
  }

  ghost predicate NoNameTwice(fs: Files, root: string) {
    forall d, e | IsDecl(fs, root, d) && IsDecl(fs, root, e) && KeyOf(d) == KeyOf(e) :: d == e
  }

  // ---------------------------------------------------------------- references

  ghost predicate FieldMentions(f: AstField, input: seq<string>) {
    match f
    case AstBasic => false
    case AstVector(elem) => FieldMentions(elem, input)
    case AstCustom(name) => name == input
  }

  /** Value or field j of a declaration names a type. */
  ghost predicate Mentions(e: Top, j: nat, input: seq<string>) {
    match e
    case DeclareUnion(_, values) => j < |values| && values[j] == input
    case DeclareTable(_, fields) => j < |fields| && FieldMentions(fields[j], input)
    case _ => false
  }

  /** The name is known with the first m parts of the namespace, and with no more of them. */
  ghost predicate BindsAt(fs: Files, root: string, ns: seq<string>, input: seq<string>, m: nat) {
    && m <= |ns| && IsKey(fs, root, Join(ns[..m] + input))
    && forall x | m < x <= |ns| :: !IsKey(fs, root, Join(ns[..x] + input))
  }

  ghost predicate IsKnown(fs: Files, root: string, ns: seq<string>, input: seq<string>) {
    exists m: nat :: BindsAt(fs, root, ns, input, m)
  }

  ghost predicate AllKnown(fs: Files, root: string, rootType: Option<TypeRef>) {
    && (forall d, j, input | IsDecl(fs, root, d) && Mentions(ElementOf(fs, d), j, input) ::
          IsKnown(fs, root, d.ns, input))
    && (rootType.Some? ==> IsKnown(fs, root, rootType.value.ns, rootType.value.input))
  }

  // ---------------------------------------------------------------- a type as it is written

  ghost predicate FieldAsWritten(f: FieldType, ns: seq<string>, a: AstField) {
    match a
    case AstBasic => f == Basic
    case AstVector(elem) => f.Vector? && FieldAsWritten(f.elem, ns, elem)
    case AstCustom(name) => f == Custom(TypeRef(name, ns, []))
  }

  ghost predicate KindAsWritten(kind: Kind, ns: seq<string>, e: Top) {
    match e
    case DeclareEnum(_) => kind == EnumType
    case DeclareUnion(_, values) =>
      kind.UnionType? && |kind.values| == |values|
      && forall j | 0 <= j < |values| :: kind.values[j] == TypeRef(values[j], ns, [])
    case DeclareTable(_, fields) =>
      kind.TableType? && |kind.fields| == |fields|
      && forall j | 0 <= j < |fields| :: FieldAsWritten(kind.fields[j], ns, fields[j])
    case _ => false
  }

  /** Element i of the file is there, under its name in the namespace in force, with nothing resolved or flagged. */
  ghost predicate WrittenAt(types: Types, file: string, ast: seq<Top>, i: nat, ns: seq<string>, name: seq<string>)
    requires i < |ast|
  {
    && Join(ns + name) in types
    && var t := types[Join(ns + name)];
    && t == SchemaType(file, ns + name, t.kind, false, false) && KindAsWritten(t.kind, ns, ast[i])
  }

  ghost predicate AllWritten(types: Types, file: string, ast: seq<Top>) {
    forall i, ns, name | 0 <= i < |ast| && InNamespace(ast, i, ns) && Names(ast[i], name) ::
      WrittenAt(types, file, ast, i, ns, name)
  }

  lemma {:induction false} FieldIsAsWritten(ns: seq<string>, a: AstField)
    ensures FieldAsWritten(ExtractField(ns, a), ns, a)
  {
    if a.AstVector? { FieldIsAsWritten(ns, a.elem); }
  }

  lemma {:induction false} KindIsAsWritten(file: string, ns: seq<string>, e: Top)
    requires Declares(e)
    ensures KindAsWritten(TypeOf(file, ns, e).kind, ns, e)
  {
    if e.DeclareTable? {
      forall j | 0 <= j < |e.fields| ensures FieldAsWritten(ExtractField(ns, e.fields[j]), ns, e.fields[j]) {
        FieldIsAsWritten(ns, e.fields[j]);
      }
    }
  }

  // ---------------------------------------------------------------- the resolved schema

  /** The reference as written, bound to the innermost scope that knows the name. */
  ghost predicate RefStands(fs: Files, root: string, ref: TypeRef, ns: seq<string>, input: seq<string>) {
    && ref.input == input && ref.ns == ns
    && exists m: nat :: BindsAt(fs, root, ns, input, m) && ref.resolved == ns[..m] + input
  }

  ghost predicate FieldStands(fs: Files, root: string, f: FieldType, ns: seq<string>, a: AstField)
    decreases a
  {
    match a
    case AstBasic => f.Basic?
    case AstVector(elem) => f.Vector? && FieldStands(fs, root, f.elem, ns, elem)
    case AstCustom(name) => f.Custom? && RefStands(fs, root, f.ref, ns, name)
  }

  ghost predicate KindStands(fs: Files, root: string, kind: Kind, ns: seq<string>, e: Top) {
    match e
    case DeclareEnum(_) => kind == EnumType
    case DeclareUnion(_, values) =>
      kind.UnionType? && |kind.values| == |values|
      && forall j | 0 <= j < |values| :: RefStands(fs, root, kind.values[j], ns, values[j])
    case DeclareTable(_, fields) =>
      kind.TableType? && |kind.fields| == |fields|
      && forall j | 0 <= j < |fields| :: FieldStands(fs, root, kind.fields[j], ns, fields[j])
    case _ => false
  }

  /** A value of a union, or a field of a table, is bound to this key. */
  ghost predicate PointsAt(fs: Files, root: string, d: Decl, j: nat, key: string, inUnion: bool) {
    && IsDecl(fs, root, d) && (if inUnion then ElementOf(fs, d).DeclareUnion? else ElementOf(fs, d).DeclareTable?)
    && exists input, m: nat :: Mentions(ElementOf(fs, d), j, input) && BindsAt(fs, root, d.ns, input, m)
                            && Join(d.ns[..m] + input) == key
  }

  ghost predicate IsPointedAt(fs: Files, root: string, key: string, inUnion: bool) {
    exists d, j: nat :: PointsAt(fs, root, d, j, key, inUnion)
  }

  ghost predicate IsRootTarget(fs: Files, root: string, rootType: Option<TypeRef>, key: string) {
    rootType.Some? && exists m: nat ::
      BindsAt(fs, root, rootType.value.ns, rootType.value.input, m)
      && Join(rootType.value.ns[..m] + rootType.value.input) == key
  }

  /** The type of a declaration, with every reference bound, and flagged if it is a table something points at. */
  ghost predicate TypeStands(fs: Files, root: string, rootType: Option<TypeRef>, types: Types, d: Decl)
    requires IsDecl(fs, root, d)
  {
    && KeyOf(d) in types
    && var t := types[KeyOf(d)];
    && t.file == d.file && t.fqtn == d.ns + d.name && KindStands(fs, root, t.kind, d.ns, ElementOf(fs, d))
    && (t.kind.TableType? ==>
          && (t.usedInUnion <==> IsPointedAt(fs, root, KeyOf(d), true))
          && (t.usedInTable <==> IsPointedAt(fs, root, KeyOf(d), false) || IsRootTarget(fs, root, rootType, KeyOf(d))))
  }

  /** The types are those of the declarations in all files that can be reached, each as it should be. */
  ghost predicate SchemaStands(fs: Files, root: string, rootType: Option<TypeRef>, types: Types) {
    && (forall k :: k in types <==> IsKey(fs, root, k))
    && forall d | IsDecl(fs, root, d) :: TypeStands(fs, root, rootType, types, d)
  }

  // ---------------------------------------------------------------- names

  /** Parts are joined by dots. */
  lemma {:induction false} JoinWrittenOut(a: string, b: string, rest: seq<string>)
    ensures Join([]) == "" && Join([a]) == a && Join([a, b] + rest) == a + "." + Join([b] + rest)
  {
    assert ([a, b] + rest)[1..] == [b] + rest;
  }

  // ---------------------------------------------------------------- one declaration

  lemma {:induction false} InNamespaceIff(ast: seq<Top>, i: nat, ns: seq<string>)
    requires i <= |ast|
    ensures InNamespace(ast, i, ns) <==> ns == NamespaceAt(ast, i)
  {
    if i > 0 {
      if ast[i - 1].Namespace? {
        assert IsLastNamespace(ast, i, i - 1);
        forall k | 0 <= k < i && IsLastNamespace(ast, i, k) ensures k == i - 1 {}
      } else {
        InNamespaceIff(ast, i - 1, ns);
        var before: nat := i - 1;
        forall k | 0 <= k < before ensures IsLastNamespace(ast, i, k) <==> IsLastNamespace(ast, before, k) {}
        assert InNamespace(ast, i, ns) <==> InNamespace(ast, before, ns);
      }
    }
  }

  /** What a declaration is read as has its name, and its kind. */
  lemma {:induction false} ReadAs(file: string, ns: seq<string>, e: Top, name: seq<string>)
    ensures Names(e, name) <==> Declares(e) && TypeOf(file, ns, e).fqtn == ns + name
    ensures Names(e, name) ==> var t := TypeOf(file, ns, e);
      && t.file == file && !t.usedInUnion && !t.usedInTable
      && (t.kind.EnumType? <==> e.DeclareEnum?) && (t.kind.UnionType? <==> e.DeclareUnion?)
      && (t.kind.TableType? <==> e.DeclareTable?)
  {
    if Declares(e) && ns + e.name == ns + name {
      assert (ns + e.name)[|ns|..] == e.name && (ns + name)[|ns|..] == name;
    }
  }

  lemma {:induction false} FieldMentioned(ns: seq<string>, f: AstField, input: seq<string>)
    ensures FieldMentions(f, input) <==> FieldRef(ExtractField(ns, f)) == Some(TypeRef(input, ns, []))
    ensures FieldRef(ExtractField(ns, f)).Some? ==>
        exists i :: FieldRef(ExtractField(ns, f)) == Some(TypeRef(i, ns, []))
  {
    if f.AstVector? { FieldMentioned(ns, f.elem, input); }
  }

  /** The references of a declaration as read are the names it mentions. */
  lemma {:induction false} Mentioned(file: string, ns: seq<string>, e: Top, j: nat, input: seq<string>)
    requires Declares(e)
    ensures var kind := TypeOf(file, ns, e).kind;
      Mentions(e, j, input) <==> j < Slots(kind) && SlotRef(kind, j) == Some(TypeRef(input, ns, []))
    ensures var kind := TypeOf(file, ns, e).kind;
      j < Slots(kind) && SlotRef(kind, j).Some? ==> exists i :: SlotRef(kind, j) == Some(TypeRef(i, ns, []))
  {
    if e.DeclareTable? && j < |e.fields| { FieldMentioned(ns, e.fields[j], input); }
  }
}
