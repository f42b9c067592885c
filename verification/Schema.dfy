/** The resolver: files are read depth first and each only once, then all references are resolved in place. */
module Schema {
  import opened Wrappers
  import opened SchemaModel
  import opened SchemaTheorems
  import opened SchemaSource
  import opened SchemaReading
  import opened SchemaResults

  datatype Error =
    | FileNotFound(file: string)
    | ParseError(file: string)
    | AlreadyDefined(name: string)
    | UnknownType

  datatype Result = Ok | Failed(error: Error)

  /** Each file was extracted once, and only files that were visited. */
  ghost predicate ExtractedOnce(fs: Files, files: set<string>, extracted: seq<string>) {
    && (forall i | 0 <= i < |extracted| :: extracted[i] in fs && fs[extracted[i]].Some?)
    && (forall i, j | 0 <= i < j < |extracted| :: extracted[i] != extracted[j])
    && (forall f | f in extracted :: f in files)
    && files <= fs.Keys
  }

  /** What a call adds is closed but for files that were there before, and can be reached from the file. */
  ghost predicate Adds(fs: Files, file: string, before: set<string>, after: set<string>) {
    && before <= after && file in after
    && (forall f, g | f in after && f !in before && Includes(fs, f, g) :: g in after)
    && (forall f | f in after && f !in before :: Reached(fs, file, f))
  }

  /** Exactly the added files have been extracted. */
  ghost predicate ExtractsAdded(before: set<string>, after: set<string>, earlier: seq<string>, extracted: seq<string>) {
    && earlier <= extracted
    && forall f :: f in extracted <==> f in earlier || (f in after && f !in before)
  }

  /** The same while the includes of a file are being gone through: it is visited, but neither closed nor extracted. */
  ghost predicate Within(fs: Files, file: string, ast: seq<Top>, n: nat, before: set<string>, files: set<string>)
    requires n <= |ast|
  {
    && before + {file} <= files
    && (forall f, g | f in files && f !in before && f != file && Includes(fs, f, g) :: g in files)
    && (forall f | f in files && f !in before :: Reached(fs, file, f))
    && (forall i | 0 <= i < n && ast[i].Include? :: ast[i].file in files)
  }

  lemma {:induction false} ReachedStep(fs: Files, root: string, g: string, h: string)
    requires Includes(fs, root, g) && Reached(fs, g, h)
    ensures Reached(fs, root, h)
  {
    forall s: set<string> | ClosedUnderIncludes(fs, s) && root in s ensures h in s {
      assert g in s;
    }
  }

  lemma {:induction false} WithinNext(fs: Files, file: string, ast: seq<Top>, n: nat, before: set<string>,
                                      files: set<string>, after: set<string>)
    requires n < |ast| && Within(fs, file, ast, n, before, files) && file in fs && fs[file] == Some(ast)
    requires if ast[n].Include? then Adds(fs, ast[n].file, files, after) else after == files
    ensures Within(fs, file, ast, n + 1, before, after)
  {
    if ast[n].Include? {
      assert Includes(fs, file, ast[n].file);
      forall f | f in after && f !in before ensures Reached(fs, file, f) {
        if f !in files { ReachedStep(fs, file, ast[n].file, f); }
      }
    }
  }

  lemma {:induction false} SeenSoFar(seen: set<string>, files: set<string>, earlier: seq<string>,
                                     extracted: seq<string>, added: seq<string>)
    requires ExtractsAdded(seen, files, earlier, extracted) && extracted == earlier + added && seen <= files
    requires (forall f | f in earlier :: f in seen) && forall f | f in added :: f !in seen
    ensures files == seen + Elements(added)
  {
    forall f | f in files && f !in seen ensures f in added {
      assert f in extracted;
    }
    forall f | f in added ensures f in files {
      assert f in extracted;
    }
  }

  lemma {:induction false} WithinAll(fs: Files, file: string, ast: seq<Top>, before: set<string>, files: set<string>)
    requires Within(fs, file, ast, |ast|, before, files) && file in fs && fs[file] == Some(ast)
    ensures Adds(fs, file, before, files)
  {
    forall g | Includes(fs, file, g) ensures g in files {
      var i :| 0 <= i < |ast| && ast[i] == Include(g);
    }
  }

  /** What a call does that resolves a file. */
  ghost predicate Resolves(fs: Files, file: string, before: set<string>, after: set<string>, earlier: seq<string>,
                           extracted: seq<string>) {
    && Adds(fs, file, before, after) && ExtractsAdded(before, after, earlier, extracted)
    && extracted == earlier + Extraction(fs, file, before)
  }

  /** What it has done when n elements of the file have been looked at. */
  ghost predicate UpTo(fs: Files, file: string, ast: seq<Top>, n: nat, before: set<string>, files: set<string>,
                       earlier: seq<string>, extracted: seq<string>) {
    && n <= |ast| && file in fs && fs[file] == Some(ast) && file !in before && (forall f | f in earlier :: f in before)
    && Within(fs, file, ast, n, before, files) && ExtractsAdded(before + {file}, files, earlier, extracted)
    && extracted == earlier + IncludesExtraction(fs, ast, n, before + {file})
  }

  lemma {:induction false} ReachesItself(fs: Files, file: string)
    ensures Reached(fs, file, file)
  {}

  lemma {:induction false} NothingToDo(fs: Files, file: string, files: set<string>, extracted: seq<string>)
    requires file in files
    ensures Resolves(fs, file, files, files, extracted, extracted)
  {}

  lemma {:induction false} UpToStart(fs: Files, file: string, ast: seq<Top>, before: set<string>, earlier: seq<string>)
    requires file in fs && fs[file] == Some(ast) && file !in before && forall f | f in earlier :: f in before
    ensures UpTo(fs, file, ast, 0, before, before + {file}, earlier, earlier)
  {}

  lemma {:induction false} UpToTraced(fs: Files, file: string, ast: seq<Top>, n: nat, before: set<string>,
                                      files: set<string>, earlier: seq<string>, extracted: seq<string>)
    requires UpTo(fs, file, ast, n, before, files, earlier, extracted)
    ensures Traced(fs, file, earlier, extracted) && file !in extracted
  {
    hide Reached, IncludesExtraction;
  }

  lemma {:induction false} UpToNext(fs: Files, file: string, ast: seq<Top>, n: nat, before: set<string>,
                                    files: set<string>, after: set<string>,
                                    earlier: seq<string>, done: seq<string>, extracted: seq<string>)
    requires n < |ast| && UpTo(fs, file, ast, n, before, files, earlier, done)
    requires if ast[n].Include? then Resolves(fs, ast[n].file, files, after, done, extracted) else
        after == files
        && extracted == done
    requires before + {file} <= files
    ensures UpTo(fs, file, ast, n + 1, before, after, earlier, extracted) && before + {file} <= after
  {
    hide Reached, IncludesExtraction, Extraction, Within;
    WithinNext(fs, file, ast, n, before, files, after);
    SeenSoFar(before + {file}, files, earlier, done, IncludesExtraction(fs, ast, n, before + {file}));
    NextExtraction(fs, ast, n, before + {file});
    AddedInTwoSteps(before + {file}, files, after, earlier, done, extracted);
    WithinHas(fs, file, ast, n + 1, before, after);
  }

  lemma {:induction false} WithinHas(fs: Files, file: string, ast: seq<Top>, n: nat, before: set<string>,
                                     files: set<string>)
    requires n <= |ast| && Within(fs, file, ast, n, before, files)
    ensures before + {file} <= files
  {}

  lemma {:induction false} NextExtraction(fs: Files, ast: seq<Top>, n: nat, seen: set<string>)
    requires n < |ast|
    ensures var r := IncludesExtraction(fs, ast, n, seen);
      IncludesExtraction(fs, ast, n + 1, seen) == r
        + if ast[n].Include? then Extraction(fs, ast[n].file, seen + Elements(r)) else []
  {}

  lemma {:induction false} AddedInTwoSteps(before: set<string>, files: set<string>, after: set<string>,
                                           earlier: seq<string>, done: seq<string>, extracted: seq<string>)
    requires before <= files <= after && ExtractsAdded(before, files, earlier, done)
        && ExtractsAdded(files, after, done, extracted)
    ensures ExtractsAdded(before, after, earlier, extracted)
  {}

  lemma {:induction false} UpToEnd(fs: Files, file: string, ast: seq<Top>, before: set<string>, files: set<string>,
                                   earlier: seq<string>, done: seq<string>)
    requires UpTo(fs, file, ast, |ast|, before, files, earlier, done)
    ensures Resolves(fs, file, before, files, earlier, done + [file])
  {
    WithinAll(fs, file, ast, before, files);
    assert done + [file] == earlier + (IncludesExtraction(fs, ast, |ast|, before + {file}) + [file]);
  }

  class Resolver {
    const fs: Files
    var files: set<string>
    var types: Types
    var order: seq<string>
    var rootType: Option<TypeRef>
    ghost var extracted: seq<string>

    /** Files are extracted once, and the types are those of the extracted files. */
    ghost predicate Valid()
      reads this
    {
      && ExtractedOnce(fs, files, extracted) && Holds(types, order, DeclaredBy(fs, extracted, |extracted|))
      && rootType == RootBy(fs, extracted, |extracted|)
    }

    constructor (fs: Files)
      ensures Valid() && this.fs == fs && files == {} && extracted == []
    {
      this.fs, files, types, order, rootType, extracted := fs, {}, map[], [], None, [];
    }

    /** On success the file and all it reaches have been visited and, unless they were before, extracted once each,
        included files first. */
    method ResolveFile(file: string) returns (r: Result)
      requires Valid() && FilesOk(fs)
      modifies this
      ensures r.Ok? ==> Valid() && Resolves(fs, file, old(files), files, old(extracted), extracted)
      ensures r.Failed? ==> Justified(fs, file, old(extracted), r.error)
      decreases fs.Keys - files
    {
      hide Extraction, IncludesExtraction, Reached, Clash, Holds, DeclaredBy, RootBy, UpTo, Resolves, NamesOk;
      if file in files {
        NothingToDo(fs, file, files, extracted);
        return Ok;
      }
      if file !in fs {
        ReachesItself(fs, file);
        return Failed(FileNotFound(file));
      }
      files := files + {file};
      if fs[file].None? {
        ReachesItself(fs, file);
        return Failed(ParseError(file));
      }
      var ast := fs[file].value;
      ghost var before := old(files);
      UpToStart(fs, file, ast, before, extracted);
      for n := 0 to |ast|
        invariant Valid() && before + {file} <= files
            && UpTo(fs, file, ast, n, before, files, old(extracted), extracted)
      {
        ghost var now, done := files, extracted;
        UpToTraced(fs, file, ast, n, before, files, old(extracted), extracted);
        if ast[n].Include? {
          assert Includes(fs, file, ast[n].file);
          r := ResolveFile(ast[n].file);
          if r.Failed? {
            JustifiedStep(fs, file, ast[n].file, old(extracted), done, r.error);
            return;
          }
        }
        UpToNext(fs, file, ast, n, before, now, files, old(extracted), done, extracted);
      }
      UpToTraced(fs, file, ast, |ast|, before, files, old(extracted), extracted);
      ghost var done := extracted;
      r := ExtractTypes(file, ast);
      if r.Failed? {
        ClashJustified(fs, file, old(extracted), done, r.error);
      } else {
        UpToEnd(fs, file, ast, before, files, old(extracted), done);
      }
    }

    /** Adds the types of one file and its root type; fails iff a name is declared twice. */
    method ExtractTypes(file: string, ast: seq<Top>) returns (r: Result)
      requires Valid() && FilesOk(fs) && file !in extracted && file in files && file in fs && fs[file] == Some(ast)
      modifies this`types, this`order, this`rootType, this`extracted
      ensures r.Ok? <==> DistinctNames(DeclaredBy(fs, old(extracted), |old(extracted)|) + Declared(file, ast, |ast|))
      ensures r.Ok? ==> Valid() && extracted == old(extracted) + [file] && AllWritten(types, file, ast)
      ensures r.Failed? ==> r.error.AlreadyDefined? && ClashesWith(fs, file, old(extracted), r.error.name)
    {
      hide Join, TypeOf, Holds, DeclaredBy, DistinctNames, AllWritten;
      ghost var list := DeclaredBy(fs, extracted, |extracted|);
      assert list + Declared(file, ast, 0) == list;
      var currentNamespace: seq<string> := [];
      for n := 0 to |ast|
        invariant extracted == old(extracted) && currentNamespace == NamespaceAt(ast, n)
        invariant rootType == if RootIn(ast, n).Some? then RootIn(ast, n) else old(rootType)
        invariant Holds(types, order, list + Declared(file, ast, n))
      {
        var elm := ast[n];
        assert !Declares(elm) ==> Declared(file, ast, n + 1) == Declared(file, ast, n);
        if elm.Namespace? {
          currentNamespace := elm.parts;
        } else if Declares(elm) {
          var t := TypeOf(file, currentNamespace, elm);
          var key := Join(t.fqtn);
          HoldsOneMore(types, order, list + Declared(file, ast, n), t);
          assert list + Declared(file, ast, n) + [t] == list + Declared(file, ast, n + 1);
          if key in types {
            DeclaredPrefix(file, ast, n + 1, |ast|);
            NotDistinctLonger(list + Declared(file, ast, n + 1), list + Declared(file, ast, |ast|));
            ClashFound(fs, extracted, file, n, types, order, key);
            return Failed(AlreadyDefined(key));
          }
          types, order := types[key := t], order + [key];
        } else if elm.RootType? {
          rootType := Some(Unresolved(currentNamespace, elm.name));
        }
      }
      HoldsDistinct(types, order, list + Declared(file, ast, |ast|));
      AddedAsWritten(types, order, list, file, ast);
      DeclaredByOneMore(fs, extracted, file);
      RootByOneMore(fs, extracted, file);
      extracted := extracted + [file];
      r := Ok;
    }

    /** Tries the whole namespace first, then shorter and shorter prefixes of it. */
    method ResolveType(ref: TypeRef) returns (r: Option<TypeRef>)
      requires |ref.input| > 0
      ensures r == Resolved(types.Keys, Some(ref)) || (r.None? && Bind(types.Keys, ref).None?)
      ensures r.Some? <==> Bind(types.Keys, ref).Some?
    {
      var prefix, resolved := ref.ns, ref.resolved;
      while resolved == []
        invariant prefix <= ref.ns
        invariant ref.resolved != [] ==> resolved == ref.resolved
        invariant ref.resolved == [] && resolved == [] ==>
            Bind(types.Keys, ref) == BindFrom(types.Keys, ref.ns, ref.input, |prefix|)
        invariant resolved != [] ==> Bind(types.Keys, ref) == Some(resolved)
        decreases if resolved == [] then |prefix| + 1 else 0
      {
        var fqtn := prefix + ref.input;
        assert ref.ns[..|prefix|] == prefix;
        if Join(fqtn) in types {
          resolved := fqtn;
        } else if |prefix| > 0 {
          prefix := prefix[..|prefix| - 1];
        } else {
          return None;
        }
      }
      r := Some(ref.(resolved := resolved));
    }

    /** Resolves what a value of a union or a field of a table refers to, and marks it. */
    method ResolveSlotOf(k: string, n: nat) returns (ok: bool)
      requires InputOk(types, k, n)
      modifies this`types
      ensures ok == ResolveSlot(old(types), k, n).Some?
      ensures types == if ok then ResolveSlot(old(types), k, n).value else old(types)
    {
      var ref, inUnion := SlotRef(types[k].kind, n), types[k].kind.UnionType?;
      if ref.None? {
        return true;
      }
      var resolved := ResolveType(ref.value);
      if resolved.None? {
        return false;
      }
      types := SetRef(types, k, n, resolved.value);
      types := Mark(types, resolved.value.resolved, inUnion);
      ok := true;
    }

    /** Succeeds iff every reference is known; then each is bound, and a table is flagged iff something refers to it. */
    method ResolveTypes() returns (r: Result)
      requires Distinct(order) && (forall k | k in types :: k in order) && (forall k | k in order :: k in types)
      requires InputsOk(types) && (rootType.Some? ==> |rootType.value.input| > 0)
      modifies this`types
      ensures r.Ok? <==> AllResolvable(old(types), rootType)
      ensures r.Failed? ==> r.error == UnknownType
      ensures r.Ok? ==>
          types.Keys == old(types).Keys
          && forall k | k in types :: Finished(old(types), types, rootType, k)
    {
      ghost var before := types;
      hide ResolveSlot, Resolvable, SlotRef, Slots, TypeAfter;
      NothingDone(before, order);
      for i := 0 to |order|
        invariant After(before, types, order, i, 0) && DoneResolvable(before, order, i, 0)
      {
        var slots := Slots(types[order[i]].kind);
        SameSlots(before, types, order, i);
        for n := 0 to slots
          invariant After(before, types, order, i, n) && DoneResolvable(before, order, i, n)
        {
          SlotStep(before, types, order, i, n);
          InputStays(before, types, order, i, n);
          var ok := ResolveSlotOf(order[i], n);
          if !ok {
            return Failed(UnknownType);
          }
          DoneNext(before, order, i, n);
        }
        NextType(before, types, order, i, slots);
        DoneNextType(before, order, i, slots);
      }
      ghost var r0 := types;
      if rootType.Some? {
        assert types.Keys == before.Keys;
        var root := ResolveType(rootType.value);
        if root.None? {
          return Failed(UnknownType);
        }
        types := Mark(types, root.value.resolved, false);
      }
      AllDoneResolvable(before, order);
      AllDoneFinished(before, r0, order, rootType, types);
      r := Ok;
    }
  }

  // ---------------------------------------------------------------- why reading fails

  /** The file missing or not parsed is one that can be reached; the name is declared by one that can be reached, and
      once more by such a file or one extracted earlier. */
  ghost predicate Justified(fs: Files, file: string, earlier: seq<string>, e: Error) {
    match e
    case FileNotFound(f) => f !in fs && Reached(fs, file, f)
    case ParseError(f) => f in fs && fs[f].None? && Reached(fs, file, f)
    case AlreadyDefined(key) => exists f, i, g, k ::
      Clash(fs, f, i, g, k, key) && Reached(fs, file, f) && (g in earlier || Reached(fs, file, g))
    case UnknownType => false
  }

  /** What has been extracted was so before, or can be reached. */
  ghost predicate Traced(fs: Files, file: string, earlier: seq<string>, done: seq<string>) {
    forall f | f in done :: f in earlier || Reached(fs, file, f)
  }

  lemma {:induction false} JustifiedStep(fs: Files, file: string, g: string, earlier: seq<string>, done: seq<string>,
                                         e: Error)
    requires Includes(fs, file, g) && Justified(fs, g, done, e) && Traced(fs, file, earlier, done)
    ensures Justified(fs, file, earlier, e)
  {
    hide Clash, Reached;
    match e
    case FileNotFound(f) => ReachedStep(fs, file, g, f);
    case ParseError(f) => ReachedStep(fs, file, g, f);
    case AlreadyDefined(key) =>
      var f, i, h, k :| Clash(fs, f, i, h, k, key) && Reached(fs, g, f) && (h in done || Reached(fs, g, h));
      ReachedStep(fs, file, g, f);
      if Reached(fs, g, h) { ReachedStep(fs, file, g, h); }
  }

  lemma {:induction false} ClashJustified(fs: Files, file: string, earlier: seq<string>, done: seq<string>, e: Error)
    requires e.AlreadyDefined? && ClashesWith(fs, file, done, e.name) && Traced(fs, file, earlier, done)
    ensures Justified(fs, file, earlier, e)
  {
    hide Clash;
    var i, g, k :| Clash(fs, file, i, g, k, e.name) && (g in done || g == file);
    assert Reached(fs, file, file);
  }

  // ---------------------------------------------------------------- the whole schema

  predicate FieldNameOk(f: AstField) {
    match f
    case AstBasic => true
    case AstVector(elem) => FieldNameOk(elem)
    case AstCustom(name) => |name| > 0
  }

  /** Names have at least one part, as splitting at dots gives. */
  ghost predicate NamesOk(e: Top) {
    match e
    case DeclareUnion(_, values) => forall i | 0 <= i < |values| :: |values[i]| > 0
    case DeclareTable(_, fields) => forall i | 0 <= i < |fields| :: FieldNameOk(fields[i])
    case RootType(name) => |name| > 0
    case _ => true
  }

  ghost predicate FilesOk(fs: Files) {
    forall f, i | f in fs && fs[f].Some? && 0 <= i < |fs[f].value| :: NamesOk(fs[f].value[i])
  }

  ghost predicate KindOk(kind: Kind) {
    forall j | 0 <= j < Slots(kind) :: SlotOk(kind, j)
  }

  ghost predicate SlotOk(kind: Kind, j: nat)
    requires j < Slots(kind)
  {
    SlotRef(kind, j).Some? ==> |SlotRef(kind, j).value.input| > 0
  }

  lemma {:induction false} ExtractedFieldOk(ns: seq<string>, f: AstField)
    requires FieldNameOk(f)
    ensures FieldRef(ExtractField(ns, f)).Some? ==> |FieldRef(ExtractField(ns, f)).value.input| > 0
  {
    if f.AstVector? { ExtractedFieldOk(ns, f.elem); }
  }

  lemma {:induction false} ExtractedKindOk(file: string, ns: seq<string>, e: Top)
    requires Declares(e) && NamesOk(e)
    ensures KindOk(TypeOf(file, ns, e).kind)
  {
    var kind := TypeOf(file, ns, e).kind;
    forall j | 0 <= j < Slots(kind) ensures SlotOk(kind, j) {
      if e.DeclareTable? { ExtractedFieldOk(ns, e.fields[j]); }
    }
  }

  lemma {:induction false} DeclaredOk(file: string, ast: seq<Top>, n: nat, i: nat)
    requires n <= |ast| && (forall x | 0 <= x < |ast| :: NamesOk(ast[x])) && i < |Declared(file, ast, n)|
    ensures KindOk(Declared(file, ast, n)[i].kind)
  {
    if i < |Declared(file, ast, n - 1)| {
      DeclaredOk(file, ast, n - 1, i);
    } else {
      ExtractedKindOk(file, NamespaceAt(ast, n - 1), ast[n - 1]);
    }
  }

  lemma {:induction false} DeclaredByOk(fs: Files, files: seq<string>, n: nat, i: nat)
    requires n <= |files| && FilesOk(fs) && forall x | 0 <= x < |files| :: files[x] in fs && fs[files[x]].Some?
    requires i < |DeclaredBy(fs, files, n)|
    ensures KindOk(DeclaredBy(fs, files, n)[i].kind)
  {
    if i < |DeclaredBy(fs, files, n - 1)| {
      DeclaredByOk(fs, files, n - 1, i);
    } else {
      var ast := fs[files[n - 1]].value;
      DeclaredOk(files[n - 1], ast, |ast|, i - |DeclaredBy(fs, files, n - 1)|);
    }
  }

  lemma {:induction false} TypesInputsOk(fs: Files, files: seq<string>, types: Types, order: seq<string>)
    requires FilesOk(fs) && forall x | 0 <= x < |files| :: files[x] in fs && fs[files[x]].Some?
    requires Holds(types, order, DeclaredBy(fs, files, |files|))
    ensures InputsOk(types) && Distinct(order) && (forall k | k in types :: k in order)
        && (forall k | k in order :: k in types)
  {
    var list := DeclaredBy(fs, files, |files|);
    forall k | k in order ensures k in types {
      var i :| 0 <= i < |order| && order[i] == k;
      assert HoldsAt(types, order[i], list[i]);
    }
    forall k, j | IsSlot(types, k, j) ensures InputOk(types, k, j) {
      var i :| 0 <= i < |order| && order[i] == k;
      assert HoldsAt(types, order[i], list[i]);
      DeclaredByOk(fs, files, |files|, i);
      assert SlotOk(types[k].kind, j);
    }
  }

  /** The visited files are exactly those that can be reached, each extracted once. */
  ghost predicate ReadsReachable(fs: Files, root: string, files: set<string>, extracted: seq<string>) {
    && (forall f :: f in files <==> Reached(fs, root, f))
    && (forall f :: f in extracted <==> f in files)
    && (forall i, j | 0 <= i < j < |extracted| :: extracted[i] != extracted[j])
    && (forall i | 0 <= i < |extracted| :: extracted[i] in fs && fs[extracted[i]].Some?)
  }

  lemma {:induction false} VisitedIsReached(fs: Files, root: string, files: set<string>)
    requires Adds(fs, root, {}, files)
    ensures forall f :: f in files <==> Reached(fs, root, f)
  {
    assert ClosedUnderIncludes(fs, files);
  }

  // ---------------------------------------------------------------- when a schema resolves

  lemma {:induction false} RootInputOk(fs: Files, files: seq<string>, n: nat)
    requires n <= |files| && FilesOk(fs) && forall i | 0 <= i < |files| :: files[i] in fs && fs[files[i]].Some?
    ensures RootBy(fs, files, n).Some? ==> |RootBy(fs, files, n).value.input| > 0
  {
    if n > 0 {
      RootInputOk(fs, files, n - 1);
      var ast := fs[files[n - 1]].value;
      RootInOk(ast, |ast|);
    }
  }

  lemma {:induction false} RootInOk(ast: seq<Top>, n: nat)
    requires n <= |ast| && forall x | 0 <= x < |ast| :: NamesOk(ast[x])
    ensures RootIn(ast, n).Some? ==> |RootIn(ast, n).value.input| > 0
  {
    if n > 0 { RootInOk(ast, n - 1); assert NamesOk(ast[n - 1]); }
  }

  // ---------------------------------------------------------------- the root type

  /** A schema resolves iff all files that can be reached exist and parse, no two of their types have the same name, and
      every reference and the root type are known; cycles of includes do no harm.  The result has exactly the declared
      types, every reference bound and every flag right. */
  method ResolveSchemaTypes(fs: Files, rootFile: string) returns (r: Result, ctx: Resolver)
    requires FilesOk(fs)
    ensures r.Ok? <==>
        Readable(fs, rootFile) && NamesDiffer(fs, rootFile)
        && AllResolvable(AllTypes(fs, rootFile), RootOf(fs, rootFile))
    ensures r.Ok? ==>
        ReadsReachable(fs, rootFile, ctx.files, ctx.extracted)
        && ctx.extracted == Extraction(fs, rootFile, {})
    ensures r.Ok? ==> Holds(AllTypes(fs, rootFile), ctx.order, DeclaredBy(fs, ctx.extracted, |ctx.extracted|))
    ensures r.Ok? ==> ctx.types.Keys == AllTypes(fs, rootFile).Keys && ctx.rootType == RootOf(fs, rootFile)
    ensures r.Ok? ==> forall k | k in ctx.types :: Finished(AllTypes(fs, rootFile), ctx.types, ctx.rootType, k)
    ensures r.Failed? ==> r.error.UnknownType? || Justified(fs, rootFile, [], r.error)
    ensures r.Ok? <==>
        Readable(fs, rootFile) && NoNameTwice(fs, rootFile) && AllKnown(fs, rootFile, RootOf(fs, rootFile))
    ensures RootStands(fs, Extraction(fs, rootFile, {}), RootOf(fs, rootFile))
    ensures r.Ok? ==> SchemaStands(fs, rootFile, ctx.rootType, ctx.types)
  {
    hide Clash, Reached, Extraction, Finished, AllResolvable, Resolves, Holds, DeclaredBy, TypesOf, RootBy, Readable,
      NamesDiffer, InputsOk, NoNameTwice, AllKnown, SchemaStands, RootStands, ReadInto, HasAsRead;
    RootIsLast(fs, Extraction(fs, rootFile, {}));
    NamesDifferIff(fs, rootFile);
    ctx := new Resolver(fs);
    r := ctx.ResolveFile(rootFile);
    if r.Failed? {
      JustifiedHarms(fs, rootFile, r.error);
      return;
    }
    AllRead(fs, rootFile, ctx.files, ctx.types, ctx.order, ctx.extracted);
    TypesInputsOk(fs, ctx.extracted, ctx.types, ctx.order);
    RootInputOk(fs, ctx.extracted, |ctx.extracted|);
    AllReadInto(fs, rootFile, ctx.files, ctx.types, ctx.order, ctx.extracted);
    ReadStands(fs, rootFile, ctx.extracted, ctx.types, ctx.order);
    ghost var read := ctx.types;
    r := ctx.ResolveTypes();
    if r.Ok? {
      FinishedStands(fs, rootFile, ctx.rootType, read, ctx.types);
    }
  }

  /** When all files have been read. */
  lemma {:induction false} AllRead(fs: Files, root: string, files: set<string>, types: Types, order: seq<string>,
                                   extracted: seq<string>)
    requires Resolves(fs, root, {}, files, [], extracted) && ExtractedOnce(fs, files, extracted)
    requires Holds(types, order, DeclaredBy(fs, extracted, |extracted|))
    ensures ReadsReachable(fs, root, files, extracted) && extracted == Extraction(fs, root, {})
        && types == AllTypes(fs, root)
    ensures Readable(fs, root) && NamesDiffer(fs, root)
  {
    hide Clash, Reached, Extraction, Holds, DeclaredBy, TypesOf, ClosedUnderIncludes;
    VisitedIsReached(fs, root, files);
    HoldsTypesOf(types, order, DeclaredBy(fs, extracted, |extracted|));
    forall f, i, g, k, key | Clash(fs, f, i, g, k, key) ensures !(Reached(fs, root, f) && Reached(fs, root, g)) {
      if Reached(fs, root, f) && Reached(fs, root, g) {
        NoClash(fs, extracted, types, order, f, i, g, k, key);
      }
    }
  }

  lemma {:induction false} AllReadInto(fs: Files, root: string, files: set<string>, types: Types, order: seq<string>,
                                       extracted: seq<string>)
    requires ReadsReachable(fs, root, files, extracted) && Holds(types, order, DeclaredBy(fs, extracted, |extracted|))
    ensures ReadInto(fs, root, extracted, types, order)
  {
    hide Reached, Holds, DeclaredBy;
  }

  lemma {:induction false} JustifiedHarms(fs: Files, root: string, e: Error)
    requires Justified(fs, root, [], e)
    ensures !(Readable(fs, root) && NamesDiffer(fs, root))
  {
    hide Clash, Reached;
  }
}
