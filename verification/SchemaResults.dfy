/** What has been read and resolved is what the source asks for. */
module SchemaResults {
  import opened Wrappers
  import opened SchemaModel
  import opened SchemaTheorems
  import opened SchemaSource
  import opened SchemaReading

  /** The list has exactly the files that can be reached, and the types are those they declare. */
  ghost predicate ReadInto(fs: Files, root: string, files: seq<string>, types: Types, order: seq<string>) {
    && (forall f :: f in files <==> Reached(fs, root, f))
    && (forall i | 0 <= i < |files| :: files[i] in fs && fs[files[i]].Some?)
    && Holds(types, order, DeclaredBy(fs, files, |files|))
  }

  ghost predicate KeysStand(fs: Files, root: string, types: Types) {
    forall k :: k in types <==> IsKey(fs, root, k)
  }

  /** Every declaration is there with its type as read, and nothing else is. */
  ghost predicate HasAsRead(fs: Files, root: string, types: Types) {
    && KeysStand(fs, root, types)
    && forall d | IsDecl(fs, root, d) :: IsAsRead(fs, root, types, d)
  }

  ghost predicate IsAsRead(fs: Files, root: string, types: Types, d: Decl)
    requires IsDecl(fs, root, d)
  {
    && KeyOf(d) in types && Declares(ElementOf(fs, d))
    && types[KeyOf(d)] == TypeOf(d.file, d.ns, ElementOf(fs, d)) && types[KeyOf(d)].fqtn == d.ns + d.name
  }

  lemma {:induction false} DeclRead(fs: Files, root: string, d: Decl)
    requires IsDecl(fs, root, d)
    ensures var e := ElementOf(fs, d);
      Declares(e) && d.ns == NamespaceAt(fs[d.file].value, d.at) && d.name == e.name
      && TypeOf(d.file, d.ns, e).fqtn == d.ns + d.name
    ensures DeclaresAs(fs, d.file, d.at, KeyOf(d))
  {
    hide Reached;
    InNamespaceIff(fs[d.file].value, d.at, d.ns);
    ReadAs(d.file, d.ns, ElementOf(fs, d), d.name);
  }

  lemma {:induction false} ReadDecl(fs: Files, root: string, f: string, i: nat) returns (d: Decl)
    requires Reached(fs, root, f) && f in fs && fs[f].Some? && i < |fs[f].value| && Declares(fs[f].value[i])
    ensures d.file == f && d.at == i && IsDecl(fs, root, d)
    ensures KeyOf(d) == Join(TypeOf(f, NamespaceAt(fs[f].value, i), fs[f].value[i]).fqtn)
  {
    hide Reached;
    var e := fs[f].value[i];
    d := Decl(f, i, NamespaceAt(fs[f].value, i), e.name);
    InNamespaceIff(fs[f].value, i, d.ns);
    ReadAs(f, d.ns, e, e.name);
  }

  lemma {:induction false} ReadIntoHas(fs: Files, root: string, files: seq<string>, types: Types, order: seq<string>)
    requires ReadInto(fs, root, files, types, order)
    ensures HasAsRead(fs, root, types)
  {
    hide Reached, Holds, DeclaredBy, IsDecl, TypeOf, KeyOf;
    forall d | IsDecl(fs, root, d) ensures IsAsRead(fs, root, types, d) {
      DeclaredIsThere(fs, root, files, types, order, d);
    }
    forall k ensures k in types <==> IsKey(fs, root, k) {
      if k in types {
        var d := KeyFrom(fs, root, files, types, order, k);
      } else if d :| IsDecl(fs, root, d) && KeyOf(d) == k {
        DeclaredIsThere(fs, root, files, types, order, d);
      }
    }
  }

  lemma {:induction false} DeclaredIsThere(fs: Files, root: string, files: seq<string>, types: Types,
                                           order: seq<string>, d: Decl)
    requires ReadInto(fs, root, files, types, order) && IsDecl(fs, root, d)
    ensures IsAsRead(fs, root, types, d)
  {
    hide Reached, DeclaredBy, Declared, TypeOf, KeyOf, Join, Position, InNamespace, Names;
    DeclRead(fs, root, d);
    var x :| 0 <= x < |files| && files[x] == d.file;
    NameAt(fs, files, types, order, x, d.at, KeyOf(d));
    DeclaredByAt(fs, files, x, d.at);
    var p := Position(fs, files, x, d.at);
    assert HoldsAt(types, order[p], DeclaredBy(fs, files, |files|)[p]);
  }

  lemma {:induction false} KeyFrom(fs: Files, root: string, files: seq<string>, types: Types, order: seq<string>,
                                   k: string) returns (d: Decl)
    requires ReadInto(fs, root, files, types, order) && k in types
    ensures IsDecl(fs, root, d) && KeyOf(d) == k
  {
    hide Reached, DeclaredBy, IsDecl, TypeOf, KeyOf, Join;
    var list := DeclaredBy(fs, files, |files|);
    var p :| 0 <= p < |order| && order[p] == k;
    assert HoldsAt(types, order[p], list[p]);
    var f, i := DeclaredByFrom(fs, files, |files|, p);
    d := ReadDecl(fs, root, f, i);
  }

  /** What a file declares has been added as it is written there. */
  lemma {:induction false} AddedAsWritten(types: Types, order: seq<string>, list: seq<SchemaType>, file: string,
                                          ast: seq<Top>)
    requires Holds(types, order, list + Declared(file, ast, |ast|))
    ensures AllWritten(types, file, ast)
  {
    hide TypeOf, Declared, Join, KindAsWritten, Names;
    var own := Declared(file, ast, |ast|);
    forall i, ns, name | 0 <= i < |ast| && InNamespace(ast, i, ns) && Names(ast[i], name)
      ensures WrittenAt(types, file, ast, i, ns, name) {
      InNamespaceIff(ast, i, ns);
      ReadAs(file, ns, ast[i], name);
      KindIsAsWritten(file, ns, ast[i]);
      DeclaredAt(file, ast, |ast|, i);
      var p := |Declared(file, ast, i)|;
      assert HoldsAt(types, order[|list| + p], (list + own)[|list| + p]);
    }
  }

  /** The same names are declared twice. */
  lemma {:induction false} NamesDifferIff(fs: Files, root: string)
    ensures NamesDiffer(fs, root) <==> NoNameTwice(fs, root)
  {
    hide Reached, KeyOf, IsDecl, DeclaresAs;
    if NamesDiffer(fs, root) {
      forall d, e | IsDecl(fs, root, d) && IsDecl(fs, root, e) && KeyOf(d) == KeyOf(e) ensures d == e {
        SameKeySame(fs, root, d, e);
      }
    }
    if NoNameTwice(fs, root) {
      forall f, i, g, k, key | Clash(fs, f, i, g, k, key) ensures !(Reached(fs, root, f) && Reached(fs, root, g)) {
        if Reached(fs, root, f) && Reached(fs, root, g) { ClashIsTwice(fs, root, f, i, g, k, key); }
      }
    }
  }

  lemma {:induction false} SameKeySame(fs: Files, root: string, d: Decl, e: Decl)
    requires NamesDiffer(fs, root) && IsDecl(fs, root, d) && IsDecl(fs, root, e) && KeyOf(d) == KeyOf(e)
    ensures d == e
  {
    hide Reached, KeyOf, DeclaresAs;
    DeclRead(fs, root, d);
    DeclRead(fs, root, e);
    assert !Clash(fs, d.file, d.at, e.file, e.at, KeyOf(d));
  }

  lemma {:induction false} ClashIsTwice(fs: Files, root: string, f: string, i: nat, g: string, k: nat, key: string)
    requires Clash(fs, f, i, g, k, key) && Reached(fs, root, f) && Reached(fs, root, g)
    ensures !NoNameTwice(fs, root)
  {
    hide Reached, KeyOf, IsDecl;
    var d := ReadDecl(fs, root, f, i);
    var e := ReadDecl(fs, root, g, k);
    assert KeyOf(d) == KeyOf(e) && d != e;
  }

  lemma {:induction false} BindsIff(fs: Files, root: string, types: Types, ns: seq<string>, input: seq<string>)
    requires KeysStand(fs, root, types)
    ensures var b := Bind(types.Keys, TypeRef(input, ns, []));
      && (b.Some? <==> IsKnown(fs, root, ns, input))
      && (forall m: nat | BindsAt(fs, root, ns, input, m) :: b == Some(ns[..m] + input))
      && (b.Some? ==> exists m: nat :: BindsAt(fs, root, ns, input, m) && b == Some(ns[..m] + input))
  {
    hide IsKey;
    BindsInnermost(types.Keys, ns, input, |ns|);
    forall m: nat ensures BindsAt(fs, root, ns, input, m) <==> IsInnermost(types.Keys, ns, input, |ns|, m) {}
  }

  /** Every reference of a type is a name that its declaration mentions. */
  lemma {:induction false} SlotMentions(fs: Files, root: string, types: Types, k: string, j: nat)
      returns (d: Decl, input: seq<string>)
    requires HasAsRead(fs, root, types) && IsSlot(types, k, j) && SlotRef(types[k].kind, j).Some?
    ensures IsDecl(fs, root, d) && KeyOf(d) == k && Mentions(ElementOf(fs, d), j, input)
    ensures SlotRef(types[k].kind, j) == Some(TypeRef(input, d.ns, []))
  {
    hide Reached, KeyOf, TypeOf;
    d :| IsDecl(fs, root, d) && KeyOf(d) == k;
    assert IsAsRead(fs, root, types, d);
    Mentioned(d.file, d.ns, ElementOf(fs, d), j, []);
    input :| SlotRef(types[k].kind, j) == Some(TypeRef(input, d.ns, []));
    Mentioned(d.file, d.ns, ElementOf(fs, d), j, input);
  }

  lemma {:induction false} MentionIsSlot(fs: Files, root: string, types: Types, d: Decl, j: nat, input: seq<string>)
    requires HasAsRead(fs, root, types) && IsDecl(fs, root, d) && Mentions(ElementOf(fs, d), j, input)
    ensures IsAsRead(fs, root, types, d) && IsSlot(types, KeyOf(d), j)
    ensures SlotRef(types[KeyOf(d)].kind, j) == Some(TypeRef(input, d.ns, []))
  {
    hide Reached, KeyOf, TypeOf;
    assert IsAsRead(fs, root, types, d);
    Mentioned(d.file, d.ns, ElementOf(fs, d), j, input);
  }

  lemma {:induction false} AllKnownIff(fs: Files, root: string, types: Types, rootType: Option<TypeRef>)
    requires HasAsRead(fs, root, types) && (rootType.Some? ==> rootType.value.resolved == [])
    ensures AllResolvable(types, rootType) <==> AllKnown(fs, root, rootType)
  {
    hide Reached, KeyOf, InNamespace, Names, Bind, IsKnown, Mentions, BindsAt;
    if rootType.Some? { BindsIff(fs, root, types, rootType.value.ns, rootType.value.input); }
    if AllResolvable(types, rootType) {
      forall d, j, input | IsDecl(fs, root, d) && Mentions(ElementOf(fs, d), j, input)
        ensures IsKnown(fs, root, d.ns, input) {
        MentionIsSlot(fs, root, types, d, j, input);
        assert Resolvable(types, KeyOf(d), j);
        BindsIff(fs, root, types, d.ns, input);
      }
    }
    if AllKnown(fs, root, rootType) {
      forall k, j | IsSlot(types, k, j) ensures Resolvable(types, k, j) {
        if SlotRef(types[k].kind, j).Some? {
          var d, input := SlotMentions(fs, root, types, k, j);
          BindsIff(fs, root, types, d.ns, input);
        }
      }
    }
  }

  // ---------------------------------------------------------------- references

  lemma {:induction false} RefersIsPointed(fs: Files, root: string, types: Types, k: string, j: nat, key: string,
                                           inUnion: bool)
    requires HasAsRead(fs, root, types) && RefersTo(types, k, j, key, inUnion)
    ensures IsPointedAt(fs, root, key, inUnion)
  {
    hide Reached, KeyOf, InNamespace, Names, Bind, Mentions, IsKey, TypeOf;
    var d, input := SlotMentions(fs, root, types, k, j);
    BindsIff(fs, root, types, d.ns, input);
    KindOfElement(fs, root, types, d);
    assert PointsAt(fs, root, d, j, key, inUnion);
  }

  lemma {:induction false} PointedIsReferred(fs: Files, root: string, types: Types, d: Decl, j: nat, key: string,
                                             inUnion: bool)
    requires HasAsRead(fs, root, types) && PointsAt(fs, root, d, j, key, inUnion)
    requires key in types && types[key].kind.TableType?
    ensures RefersTo(types, KeyOf(d), j, key, inUnion)
  {
    hide Reached, KeyOf, InNamespace, Names, Bind, Mentions, IsKey, TypeOf;
    var input: seq<string>, m: nat :| Mentions(ElementOf(fs, d), j, input) && BindsAt(fs, root, d.ns, input, m)
                            && Join(d.ns[..m] + input) == key;
    MentionIsSlot(fs, root, types, d, j, input);
    BindsIff(fs, root, types, d.ns, input);
    KindOfElement(fs, root, types, d);
  }

  lemma {:induction false} KindOfElement(fs: Files, root: string, types: Types, d: Decl)
    requires HasAsRead(fs, root, types) && IsDecl(fs, root, d)
    ensures KeyOf(d) in types
    ensures types[KeyOf(d)].kind.UnionType? <==> ElementOf(fs, d).DeclareUnion?
    ensures types[KeyOf(d)].kind.TableType? <==> ElementOf(fs, d).DeclareTable?
  {
    hide Reached, KeyOf;
    assert IsAsRead(fs, root, types, d);
  }

  lemma {:induction false} PointedIff(fs: Files, root: string, types: Types, key: string, inUnion: bool)
    requires HasAsRead(fs, root, types) && key in types && types[key].kind.TableType?
    ensures IsPointedAt(fs, root, key, inUnion) <==> exists k, j :: RefersTo(types, k, j, key, inUnion)
  {
    hide Reached, KeyOf, IsDecl, RefersTo, PointsAt, HasAsRead;
    if d, j: nat :| PointsAt(fs, root, d, j, key, inUnion) {
      PointedIsReferred(fs, root, types, d, j, key, inUnion);
    }
    if k, j :| RefersTo(types, k, j, key, inUnion) {
      RefersIsPointed(fs, root, types, k, j, key, inUnion);
    }
  }

  lemma {:induction false} RootTargetIff(fs: Files, root: string, types: Types, rootType: Option<TypeRef>, key: string)
    requires KeysStand(fs, root, types) && (rootType.Some? ==> rootType.value.resolved == [])
    ensures IsRootTarget(fs, root, rootType, key) <==>
      rootType.Some? && Bind(types.Keys, rootType.value).Some? && Join(Bind(types.Keys, rootType.value).value) == key
  {
    hide BindsAt, IsKnown, Bind;
    if rootType.Some? { BindsIff(fs, root, types, rootType.value.ns, rootType.value.input); }
  }

  lemma {:induction false} RefIsBound(fs: Files, root: string, types: Types, ns: seq<string>, input: seq<string>)
    requires KeysStand(fs, root, types) && IsKnown(fs, root, ns, input)
    ensures var r := Resolved(types.Keys, Some(TypeRef(input, ns, [])));
      r.Some? && RefStands(fs, root, r.value, ns, input)
  {
    hide IsKnown, Bind, BindsAt;
    BindsIff(fs, root, types, ns, input);
  }

  lemma {:induction false} FieldIsBound(fs: Files, root: string, types: Types, f: FieldType, ns: seq<string>,
                                        a: AstField)
    requires KeysStand(fs, root, types) && SameNesting(f, ExtractField(ns, a))
    requires FieldRef(f) == Resolved(types.Keys, FieldRef(ExtractField(ns, a)))
    requires forall input | FieldMentions(a, input) :: IsKnown(fs, root, ns, input)
    ensures FieldStands(fs, root, f, ns, a)
  {
    hide IsKnown, Resolved, RefStands;
    if a.AstVector? {
      forall input | FieldMentions(a.elem, input) ensures IsKnown(fs, root, ns, input) {
        assert FieldMentions(a, input);
      }
      FieldIsBound(fs, root, types, f.elem, ns, a.elem);
    } else if a.AstCustom? {
      assert FieldMentions(a, a.name);
      RefIsBound(fs, root, types, ns, a.name);
    }
  }

  lemma {:induction false} KindIsBound(fs: Files, root: string, types: Types, kind: Kind, d: Decl)
    requires HasAsRead(fs, root, types) && IsDecl(fs, root, d) && IsAsRead(fs, root, types, d)
    requires var was := types[KeyOf(d)].kind;
      SameShape(kind, was) && forall j | 0 <= j < Slots(was) ::
        SlotRef(kind, j) == Resolved(types.Keys, SlotRef(was, j))
    requires forall j, input | Mentions(ElementOf(fs, d), j, input) :: IsKnown(fs, root, d.ns, input)
    ensures KindStands(fs, root, kind, d.ns, ElementOf(fs, d))
  {
    hide Reached, InNamespace, Names, KeyOf, IsKnown, Resolved, RefStands;
    var e, was := ElementOf(fs, d), types[KeyOf(d)].kind;
    match e
    case DeclareUnion(_, values) =>
      forall j | 0 <= j < |values| ensures RefStands(fs, root, kind.values[j], d.ns, values[j]) {
        assert Mentions(e, j, values[j]) && SlotRef(kind, j) == Resolved(types.Keys, SlotRef(was, j));
        RefIsBound(fs, root, types, d.ns, values[j]);
      }
    case DeclareTable(_, fields) =>
      forall j | 0 <= j < |fields| ensures FieldStands(fs, root, kind.fields[j], d.ns, fields[j]) {
        assert SlotRef(kind, j) == Resolved(types.Keys, SlotRef(was, j));
        forall input | FieldMentions(fields[j], input) ensures IsKnown(fs, root, d.ns, input) {
          assert Mentions(e, j, input);
        }
        FieldIsBound(fs, root, types, kind.fields[j], d.ns, fields[j]);
      }
    case _ =>
  }

  lemma {:induction false} TypeIsBound(fs: Files, root: string, rootType: Option<TypeRef>, types: Types, r: Types,
                                       d: Decl)
    requires HasAsRead(fs, root, types) && IsDecl(fs, root, d) && (rootType.Some? ==> rootType.value.resolved == [])
    requires KeyOf(d) in types && KeyOf(d) in r && Finished(types, r, rootType, KeyOf(d))
    requires AllKnown(fs, root, rootType)
    ensures TypeStands(fs, root, rootType, r, d)
  {
    hide Reached, IsDecl, KeyOf, IsKnown, Resolved, KindStands, IsPointedAt, IsRootTarget, RefersTo, Mentions, Bind;
    var k := KeyOf(d);
    assert IsAsRead(fs, root, types, d);
    KindIsBound(fs, root, types, r[k].kind, d);
    if types[k].kind.TableType? {
      PointedIff(fs, root, types, k, true);
      PointedIff(fs, root, types, k, false);
      RootTargetIff(fs, root, types, rootType, k);
    }
  }

  /** A finished schema is the one its source asks for. */
  lemma {:induction false} FinishedStands(fs: Files, root: string, rootType: Option<TypeRef>, types: Types, r: Types)
    requires HasAsRead(fs, root, types) && (rootType.Some? ==> rootType.value.resolved == [])
    requires AllKnown(fs, root, rootType) && r.Keys == types.Keys
        && forall k | k in types :: Finished(types, r, rootType, k)
    ensures SchemaStands(fs, root, rootType, r)
  {
    hide IsDecl, KeyOf, TypeStands, Finished, AllKnown;
    forall d | IsDecl(fs, root, d) ensures TypeStands(fs, root, rootType, r, d) {
      assert IsAsRead(fs, root, types, d);
      TypeIsBound(fs, root, rootType, types, r, d);
    }
  }

  // ---------------------------------------------------------------- the root type

  /** Element i of file x names a root type, and nothing behind it does, in that file or in a later one. */
  ghost predicate IsLastRoot(fs: Files, files: seq<string>, x: nat, i: nat)
    requires forall i | 0 <= i < |files| :: files[i] in fs && fs[files[i]].Some?
  {
    && x < |files| && i < |fs[files[x]].value| && fs[files[x]].value[i].RootType?
    && (forall m | i < m < |fs[files[x]].value| :: !fs[files[x]].value[m].RootType?)
    && forall y | x < y < |files| :: NoRoot(fs[files[y]].value)
  }

  ghost predicate NoRoot(ast: seq<Top>) {
    forall m | 0 <= m < |ast| :: !ast[m].RootType?
  }

  /** The root type is the one named last, as written, in the namespace that is in force there. */
  ghost predicate RootStands(fs: Files, files: seq<string>, rootType: Option<TypeRef>)
    requires forall i | 0 <= i < |files| :: files[i] in fs && fs[files[i]].Some?
  {
    match rootType
    case None => forall y | 0 <= y < |files| :: NoRoot(fs[files[y]].value)
    case Some(ref) => exists x: nat, i: nat ::
      IsLastRoot(fs, files, x, i) && ref.input == fs[files[x]].value[i].name
      && InNamespace(fs[files[x]].value, i, ref.ns) && ref.resolved == []
  }

  lemma {:induction false} RootInFound(ast: seq<Top>, n: nat) returns (i: nat)
    requires n <= |ast|
    ensures match RootIn(ast, n)
      case None => forall m | 0 <= m < n :: !ast[m].RootType?
      case Some(ref) =>
        i < n && ast[i].RootType? && (forall m | i < m < n :: !ast[m].RootType?)
        && ref == TypeRef(ast[i].name, NamespaceAt(ast, i), [])
  {
    if n == 0 {
      i := 0;
    } else if ast[n - 1].RootType? {
      i := n - 1;
    } else {
      i := RootInFound(ast, n - 1);
    }
  }

  lemma {:induction false} RootByStands(fs: Files, files: seq<string>, n: nat) returns (x: nat, i: nat)
    requires n <= |files| && forall i | 0 <= i < |files| :: files[i] in fs && fs[files[i]].Some?
    ensures match RootBy(fs, files, n)
      case None => forall y | 0 <= y < n :: NoRoot(fs[files[y]].value)
      case Some(ref) =>
        x < n && i < |fs[files[x]].value| && fs[files[x]].value[i].RootType?
        && (forall m | i < m < |fs[files[x]].value| :: !fs[files[x]].value[m].RootType?)
        && (forall y | x < y < n :: NoRoot(fs[files[y]].value))
        && ref == TypeRef(fs[files[x]].value[i].name, NamespaceAt(fs[files[x]].value, i), [])
  {
    if n == 0 {
      x, i := 0, 0;
    } else {
      var ast := fs[files[n - 1]].value;
      x := n - 1;
      i := RootInFound(ast, |ast|);
      if RootIn(ast, |ast|).None? { x, i := RootByStands(fs, files, n - 1); }
    }
  }

  lemma {:induction false} RootIsLast(fs: Files, files: seq<string>)
    requires forall i | 0 <= i < |files| :: files[i] in fs && fs[files[i]].Some?
    ensures RootStands(fs, files, RootBy(fs, files, |files|))
  {
    var x, i := RootByStands(fs, files, |files|);
    if RootBy(fs, files, |files|).Some? {
      InNamespaceIff(fs[files[x]].value, i, NamespaceAt(fs[files[x]].value, i));
      assert IsLastRoot(fs, files, x, i);
    }
  }

  /** What the files say of names, references and the root type, once all have been read. */
  lemma {:induction false} ReadStands(fs: Files, root: string, files: seq<string>, types: Types, order: seq<string>)
    requires ReadInto(fs, root, files, types, order)
    ensures HasAsRead(fs, root, types)
    ensures var r := RootBy(fs, files, |files|);
      && RootStands(fs, files, r) && (r.Some? ==> r.value.resolved == [])
      && (AllResolvable(types, r) <==> AllKnown(fs, root, r))
  {
    hide ReadInto, HasAsRead, AllResolvable, AllKnown, IsLastRoot, DeclaredBy, RootBy;
    ReadIntoFiles(fs, root, files, types, order);
    ReadIntoHas(fs, root, files, types, order);
    RootIsLast(fs, files);
    AllKnownIff(fs, root, types, RootBy(fs, files, |files|));
  }

  lemma {:induction false} ReadIntoFiles(fs: Files, root: string, files: seq<string>, types: Types, order: seq<string>)
    requires ReadInto(fs, root, files, types, order)
    ensures forall i | 0 <= i < |files| :: files[i] in fs && fs[files[i]].Some?
  {
    hide Reached, Holds, DeclaredBy;
  }
}
