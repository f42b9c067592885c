/** What the files of a schema declare, one after another, and when a name is declared twice. */
module SchemaReading {
  import opened Wrappers
  import opened SchemaModel

  ghost predicate DistinctNames(list: seq<SchemaType>) {
    forall i, j | 0 <= i < j < |list| :: Join(list[i].fqtn) != Join(list[j].fqtn)
  }

  lemma {:induction false} HoldsOneMore(types: Types, order: seq<string>, list: seq<SchemaType>, t: SchemaType)
    requires Holds(types, order, list)
    ensures Join(t.fqtn) !in types ==> Holds(types[Join(t.fqtn) := t], order + [Join(t.fqtn)], list + [t])
    ensures Join(t.fqtn) in types ==> !DistinctNames(list + [t])
  {
    var key := Join(t.fqtn);
    if key in types {
      var i :| 0 <= i < |order| && order[i] == key;
      assert HoldsAt(types, order[i], list[i]);
      assert (list + [t])[i] == list[i] && (list + [t])[|list|] == t;
    } else {
      var types', order', list' := types[key := t], order + [key], list + [t];
      forall i | 0 <= i < |list'| ensures HoldsAt(types', order'[i], list'[i]) {
        if i < |list| { assert HoldsAt(types, order[i], list[i]); }
      }
      forall i, j | 0 <= i < j < |order'| ensures order'[i] != order'[j] {
        assert HoldsAt(types, order[i], list[i]);
      }
    }
  }

  lemma {:induction false} HoldsDistinct(types: Types, order: seq<string>, list: seq<SchemaType>)
    requires Holds(types, order, list)
    ensures DistinctNames(list)
  {
    forall i, j | 0 <= i < j < |list| ensures Join(list[i].fqtn) != Join(list[j].fqtn) {
      assert HoldsAt(types, order[i], list[i]) && HoldsAt(types, order[j], list[j]);
    }
  }

  lemma {:induction false} NotDistinctLonger(a: seq<SchemaType>, b: seq<SchemaType>)
    requires !DistinctNames(a) && a <= b
    ensures !DistinctNames(b)
  {
    var i, j :| 0 <= i < j < |a| && Join(a[i].fqtn) == Join(a[j].fqtn);
    assert b[i] == a[i] && b[j] == a[j];
  }

  lemma {:induction false} DeclaredPrefix(file: string, ast: seq<Top>, m: nat, n: nat)
    requires m <= n <= |ast|
    ensures Declared(file, ast, m) <= Declared(file, ast, n)
    decreases n - m
  {
    if m < n { DeclaredPrefix(file, ast, m, n - 1); }
  }

  lemma {:induction false} DeclaredFrom(file: string, ast: seq<Top>, n: nat, p: nat) returns (i: nat)
    requires n <= |ast| && p < |Declared(file, ast, n)|
    ensures i < n && Declares(ast[i]) && Declared(file, ast, n)[p] == TypeOf(file, NamespaceAt(ast, i), ast[i])
  {
    if p < |Declared(file, ast, n - 1)| { i := DeclaredFrom(file, ast, n - 1, p); } else { i := n - 1; }
  }

  lemma {:induction false} DeclaredByFrom(fs: Files, files: seq<string>, n: nat, p: nat) returns (f: string, i: nat)
    requires n <= |files| && (forall i | 0 <= i < |files| :: files[i] in fs && fs[files[i]].Some?)
        && p < |DeclaredBy(fs, files, n)|
    ensures f in files[..n] && i < |fs[f].value| && Declares(fs[f].value[i])
    ensures DeclaredBy(fs, files, n)[p] == TypeOf(f, NamespaceAt(fs[f].value, i), fs[f].value[i])
  {
    hide TypeOf, Declared;
    if p < |DeclaredBy(fs, files, n - 1)| {
      f, i := DeclaredByFrom(fs, files, n - 1, p);
      assert files[..n] == files[..n - 1] + [files[n - 1]];
    } else {
      f := files[n - 1];
      assert files[..n][n - 1] == f;
      i := DeclaredFrom(f, fs[f].value, |fs[f].value|, p - |DeclaredBy(fs, files, n - 1)|);
    }
  }

  lemma {:induction false} DeclaredByOneMore(fs: Files, files: seq<string>, file: string)
    requires (forall i | 0 <= i < |files| :: files[i] in fs && fs[files[i]].Some?) && file in fs && fs[file].Some?
    ensures var ast := fs[file].value;
      DeclaredBy(fs, files + [file], |files| + 1) == DeclaredBy(fs, files, |files|) + Declared(file, ast, |ast|)
  {
    DeclaredBySame(fs, files, files + [file], |files|);
  }

  lemma {:induction false} DeclaredBySame(fs: Files, a: seq<string>, b: seq<string>, n: nat)
    requires n <= |a| && a <= b && forall i | 0 <= i < |b| :: b[i] in fs && fs[b[i]].Some?
    ensures DeclaredBy(fs, a, n) == DeclaredBy(fs, b, n)
  {
    if n > 0 { DeclaredBySame(fs, a, b, n - 1); }
  }

  lemma {:induction false} RootByOneMore(fs: Files, files: seq<string>, file: string)
    requires (forall i | 0 <= i < |files| :: files[i] in fs && fs[files[i]].Some?) && file in fs && fs[file].Some?
    ensures var r := RootIn(fs[file].value, |fs[file].value|);
      RootBy(fs, files + [file], |files| + 1) == if r.Some? then r else RootBy(fs, files, |files|)
  {
    RootBySame(fs, files, files + [file], |files|);
  }

  lemma {:induction false} RootBySame(fs: Files, a: seq<string>, b: seq<string>, n: nat)
    requires n <= |a| && a <= b && forall i | 0 <= i < |b| :: b[i] in fs && fs[b[i]].Some?
    ensures RootBy(fs, a, n) == RootBy(fs, b, n)
  {
    if n > 0 { RootBySame(fs, a, b, n - 1); }
  }

  /** Where a declaration stands in the list of all types. */
  lemma {:induction false} DeclaredAt(file: string, ast: seq<Top>, n: nat, i: nat)
    requires i < n <= |ast| && Declares(ast[i])
    ensures |Declared(file, ast, i)| < |Declared(file, ast, i + 1)| <= |Declared(file, ast, n)|
    ensures Declared(file, ast, n)[|Declared(file, ast, i)|] == TypeOf(file, NamespaceAt(ast, i), ast[i])
  {
    DeclaredPrefix(file, ast, i + 1, n);
  }

  lemma {:induction false} DeclaredByPrefix(fs: Files, files: seq<string>, m: nat, n: nat)
    requires m <= n <= |files| && forall i | 0 <= i < |files| :: files[i] in fs && fs[files[i]].Some?
    ensures DeclaredBy(fs, files, m) <= DeclaredBy(fs, files, n)
    decreases n - m
  {
    if m < n { DeclaredByPrefix(fs, files, m, n - 1); }
  }

  function Position(fs: Files, files: seq<string>, x: nat, i: nat): nat
    requires x < |files| && (forall i | 0 <= i < |files| :: files[i] in fs && fs[files[i]].Some?)
        && i <= |fs[files[x]].value|
  {
    |DeclaredBy(fs, files, x)| + |Declared(files[x], fs[files[x]].value, i)|
  }

  lemma {:induction false} DeclaredByAt(fs: Files, files: seq<string>, x: nat, i: nat)
    requires x < |files| && (forall i | 0 <= i < |files| :: files[i] in fs && fs[files[i]].Some?)
    requires i < |fs[files[x]].value| && Declares(fs[files[x]].value[i])
    ensures var list, p := DeclaredBy(fs, files, |files|), Position(fs, files, x, i);
      && p < Position(fs, files, x, i + 1) <= |DeclaredBy(fs, files, x + 1)| <= |list|
      && list[p] == TypeOf(files[x], NamespaceAt(fs[files[x]].value, i), fs[files[x]].value[i])
  {
    DeclaredAt(files[x], fs[files[x]].value, |fs[files[x]].value|, i);
    DeclaredByPrefix(fs, files, x + 1, |files|);
  }

  lemma {:induction false} PositionsDiffer(fs: Files, files: seq<string>, x: nat, i: nat, y: nat, k: nat)
    requires x < |files| && y < |files| && forall i | 0 <= i < |files| :: files[i] in fs && fs[files[i]].Some?
    requires i < |fs[files[x]].value| && Declares(fs[files[x]].value[i]) && k <= |fs[files[y]].value|
    requires x < y || (x == y && i < k)
    ensures Position(fs, files, x, i) < Position(fs, files, y, k)
  {
    hide TypeOf, DeclaredBy, Declared;
    DeclaredByAt(fs, files, x, i);
    if x < y {
      DeclaredByPrefix(fs, files, x + 1, y);
    } else {
      DeclaredPrefix(files[x], fs[files[x]].value, i + 1, k);
    }
  }

  ghost predicate HasName(list: seq<SchemaType>, key: string) {
    exists i :: 0 <= i < |list| && Join(list[i].fqtn) == key
  }

  lemma {:induction false} TypesOfHas(list: seq<SchemaType>)
    requires DistinctNames(list)
    ensures forall k | k in TypesOf(list) :: HasName(list, k)
    ensures forall i | 0 <= i < |list| :: HoldsAt(TypesOf(list), Join(list[i].fqtn), list[i])
  {
    hide Join;
    if list != [] {
      var n := |list| - 1;
      var front := list[..n];
      TypesOfHas(front);
      assert TypesOf(list) == TypesOf(front)[Join(list[n].fqtn) := list[n]];
      forall k | k in TypesOf(list) ensures HasName(list, k) {
        if k != Join(list[n].fqtn) {
          assert HasName(front, k);
          var i :| 0 <= i < |front| && Join(front[i].fqtn) == k;
          assert list[i] == front[i];
        }
      }
      forall i | 0 <= i < |list| ensures HoldsAt(TypesOf(list), Join(list[i].fqtn), list[i]) {
        if i < n { assert HoldsAt(TypesOf(front), Join(front[i].fqtn), front[i]); }
      }
    }
  }

  lemma {:induction false} HoldsTypesOf(types: Types, order: seq<string>, list: seq<SchemaType>)
    requires Holds(types, order, list)
    ensures types == TypesOf(list)
  {
    hide Join;
    HoldsDistinct(types, order, list);
    TypesOfHas(list);
    var r := TypesOf(list);
    forall k | k in types ensures k in r && r[k] == types[k] {
      var i :| 0 <= i < |order| && order[i] == k;
      assert HoldsAt(types, order[i], list[i]) && HoldsAt(r, Join(list[i].fqtn), list[i]);
    }
    forall k | k in r ensures k in types {
      assert HasName(list, k);
      var i :| 0 <= i < |list| && Join(list[i].fqtn) == k;
      assert HoldsAt(types, order[i], list[i]);
    }
  }

  /** Every file that can be reached exists and parses. */
  ghost predicate Readable(fs: Files, root: string) {
    forall f | Reached(fs, root, f) :: f in fs && fs[f].Some?
  }

  /** All types there are, before any reference is resolved. */
  function AllTypes(fs: Files, root: string): Types {
    var files := Extraction(fs, root, {});
    TypesOf(DeclaredBy(fs, files, |files|))
  }

  function RootOf(fs: Files, root: string): Option<TypeRef> {
    var files := Extraction(fs, root, {});
    RootBy(fs, files, |files|)
  }

  // ---------------------------------------------------------------- names declared twice

  /** Element i of file f declares a type of this joined name. */
  ghost predicate DeclaresAs(fs: Files, f: string, i: nat, key: string) {
    && f in fs && fs[f].Some? && i < |fs[f].value| && Declares(fs[f].value[i])
    && Join(TypeOf(f, NamespaceAt(fs[f].value, i), fs[f].value[i]).fqtn) == key
  }

  /** Two different declarations of one name. */
  ghost predicate Clash(fs: Files, f: string, i: nat, g: string, k: nat, key: string) {
    DeclaresAs(fs, f, i, key) && DeclaresAs(fs, g, k, key) && (f != g || i != k)
  }

  /** A name that the file declares is declared once more, in it or in one of the others. */
  ghost predicate ClashesWith(fs: Files, file: string, others: seq<string>, key: string) {
    exists i, g, k :: Clash(fs, file, i, g, k, key) && (g in others || g == file)
  }

  /** A name that is already known has been declared. */
  lemma {:induction false} ClashFound(fs: Files, files: seq<string>, file: string, n: nat, types: Types,
                                      order: seq<string>, key: string)
    requires (forall i | 0 <= i < |files| :: files[i] in fs && fs[files[i]].Some?) && file !in files
    requires file in fs && fs[file].Some? && n < |fs[file].value| && DeclaresAs(fs, file, n, key)
    requires Holds(types, order, DeclaredBy(fs, files, |files|) + Declared(file, fs[file].value, n)) && key in types
    ensures ClashesWith(fs, file, files, key)
  {
    hide TypeOf, Declared, DeclaredBy;
    var list, own := DeclaredBy(fs, files, |files|), Declared(file, fs[file].value, n);
    var p :| 0 <= p < |order| && order[p] == key;
    assert HoldsAt(types, order[p], (list + own)[p]);
    if p < |list| {
      var g, k := DeclaredByFrom(fs, files, |files|, p);
      assert Clash(fs, file, n, g, k, key);
    } else {
      var k := DeclaredFrom(file, fs[file].value, n, p - |list|);
      assert Clash(fs, file, n, file, k, key);
    }
  }

  /** No name is declared twice in what can be reached. */
  ghost predicate NamesDiffer(fs: Files, root: string) {
    forall f, i, g, k, key | Clash(fs, f, i, g, k, key) :: !(Reached(fs, root, f) && Reached(fs, root, g))
  }

  lemma {:induction false} NameAt(fs: Files, files: seq<string>, types: Types, order: seq<string>, x: nat, i: nat,
                                  key: string)
    requires forall i | 0 <= i < |files| :: files[i] in fs && fs[files[i]].Some?
    requires Holds(types, order, DeclaredBy(fs, files, |files|)) && x < |files| && DeclaresAs(fs, files[x], i, key)
    ensures var p := Position(fs, files, x, i); p < |order| && order[p] == key
  {
    hide Join, TypeOf, DeclaredBy, Declared, Position;
    DeclaredByAt(fs, files, x, i);
    var list, p := DeclaredBy(fs, files, |files|), Position(fs, files, x, i);
    assert HoldsAt(types, order[p], list[p]);
  }

  /** Where all types have been added, no name is declared twice. */
  lemma {:induction false} NoClash(fs: Files, files: seq<string>, types: Types, order: seq<string>, f: string, i: nat,
                                   g: string, k: nat, key: string)
    requires forall i | 0 <= i < |files| :: files[i] in fs && fs[files[i]].Some?
    requires Holds(types, order, DeclaredBy(fs, files, |files|)) && f in files && g in files
    ensures !Clash(fs, f, i, g, k, key)
  {
    hide Join, TypeOf, DeclaredBy, Declared, Position;
    var x :| 0 <= x < |files| && files[x] == f;
    var y :| 0 <= y < |files| && files[y] == g;
    if DeclaresAs(fs, f, i, key) && DeclaresAs(fs, g, k, key) {
      NameAt(fs, files, types, order, x, i, key);
      NameAt(fs, files, types, order, y, k, key);
      if x < y || (x == y && i < k) {
        PositionsDiffer(fs, files, x, i, y, k);
      } else if y < x || (x == y && k < i) {
        PositionsDiffer(fs, files, y, k, x, i);
      }
    }
  }
}
