/** References bind to the innermost scope that knows the name, and tables are flagged exactly if something refers to
    them. */
module SchemaTheorems {
  import opened Wrappers
  import opened SchemaModel

  // ---------------------------------------------------------------- names

  predicate NoDot(parts: seq<string>) {
    forall i | 0 <= i < |parts| :: '.' !in parts[i]
  }

  /** Joined names are different for different lists of parts. */
  lemma {:induction false} JoinInjective(a: seq<string>, b: seq<string>)
    requires NoDot(a) && NoDot(b) && |a| > 0 && |b| > 0
    ensures Join(a) == Join(b) <==> a == b
  {
    if Join(a) == Join(b) {
      if |a| > 1 && |b| > 1 {
        FirstPart(a[0], Join(a[1..]), b[0], Join(b[1..]));
        JoinInjective(a[1..], b[1..]);
        assert a == [a[0]] + a[1..] && b == [b[0]] + b[1..];
      } else if |a| > 1 {
        JoinHasDot(a);
      } else if |b| > 1 {
        JoinHasDot(b);
      } else {
        assert a == [a[0]] && b == [b[0]];
      }
    }
  }

  lemma {:induction false} JoinHasDot(parts: seq<string>)
    requires |parts| > 1
    ensures '.' in Join(parts)
  {
    assert Join(parts)[|parts[0]|] == '.';
  }

  lemma {:induction false} FirstPart(x: string, r: string, y: string, s: string)
    requires '.' !in x && '.' !in y && x + "." + r == y + "." + s
    ensures x == y && r == s
  {
    var w := x + "." + r;
    if |x| < |y| {
      DotTooEarly(x, r, y, s);
    } else if |y| < |x| {
      DotTooEarly(y, s, x, r);
    } else {
      assert w[..|x|] == x && w[..|x|] == y && w[|x| + 1..] == r && w[|x| + 1..] == s;
    }
  }

  lemma {:induction false} DotTooEarly(x: string, r: string, y: string, s: string)
    requires '.' !in y && |x| < |y|
    ensures x + "." + r != y + "." + s
  {
    assert (x + "." + r)[|x|] == '.' && (y + "." + s)[|x|] == y[|x|];
    assert y[|x|] in y;
  }

  // ---------------------------------------------------------------- binding

  /** A name bound with the first m parts of a namespace. */
  ghost predicate KnownIn(keys: set<string>, ns: seq<string>, input: seq<string>, m: nat)
    requires m <= |ns|
  {
    Join(ns[..m] + input) in keys
  }

  ghost predicate IsInnermost(keys: set<string>, ns: seq<string>, input: seq<string>, k: nat, m: nat)
    requires k <= |ns|
  {
    m <= k && KnownIn(keys, ns, input, m) && forall x | m < x <= k :: !KnownIn(keys, ns, input, x)
  }

  /** A reference binds to the longest namespace prefix under which the name is declared, and to none iff there is
      none. */
  lemma {:induction false} BindsInnermost(keys: set<string>, ns: seq<string>, input: seq<string>, k: nat)
    requires k <= |ns|
    ensures var r := BindFrom(keys, ns, input, k);
      && (r.None? <==> forall m: nat | m <= k :: !KnownIn(keys, ns, input, m))
      && (r.Some? <==> exists m: nat :: IsInnermost(keys, ns, input, k, m))
      && forall m: nat | IsInnermost(keys, ns, input, k, m) :: r == Some(ns[..m] + input)
  {
    if KnownIn(keys, ns, input, k) {
      assert IsInnermost(keys, ns, input, k, k);
      forall m: nat | IsInnermost(keys, ns, input, k, m) ensures m == k {}
    } else if k > 0 {
      BindsInnermost(keys, ns, input, k - 1);
      var before: nat := k - 1;
      forall m: nat ensures IsInnermost(keys, ns, input, k, m) <==> IsInnermost(keys, ns, input, before, m) {
        if IsInnermost(keys, ns, input, k, m) { assert m != k; }
      }
      assert BindFrom(keys, ns, input, k) == BindFrom(keys, ns, input, before);
      if BindFrom(keys, ns, input, before).None? {
        forall m: nat | m <= k ensures !KnownIn(keys, ns, input, m) {
          assert m <= before || m == k;
        }
      }
    } else {
      forall m: nat | m <= k ensures !KnownIn(keys, ns, input, m) {}
    }
  }

  // ---------------------------------------------------------------- slots

  lemma {:induction false} SetFieldRefSets(f: FieldType, ref: TypeRef)
    requires FieldRef(f).Some?
    ensures FieldRef(SetFieldRef(f, ref)) == Some(ref)
  {
    if f.Vector? { SetFieldRefSets(f.elem, ref); }
  }

  /** The same vectors, around a basic type in both or around a reference in both. */
  predicate SameNesting(f: FieldType, g: FieldType) {
    match f
    case Basic => g.Basic?
    case Vector(elem) => g.Vector? && SameNesting(elem, g.elem)
    case Custom(_) => g.Custom?
  }

  ghost predicate SameFields(a: Kind, b: Kind) {
    && (a.UnionType? <==> b.UnionType?) && (a.TableType? <==> b.TableType?)
    && (a.TableType? ==> |a.fields| == |b.fields|
                         && forall j | 0 <= j < |a.fields| :: SameNesting(a.fields[j], b.fields[j]))
  }

  ghost predicate SameShape(a: Kind, b: Kind) {
    Slots(a) == Slots(b) && SameFields(a, b)
  }

  lemma {:induction false} NestingStays(f: FieldType, g: FieldType, h: FieldType, ref: TypeRef)
    ensures SameNesting(f, f) && SameNesting(SetFieldRef(f, ref), f)
    ensures SameNesting(f, g) && SameNesting(g, h) ==> SameNesting(f, h)
  {
    if f.Vector? {
      NestingStays(f.elem, if g.Vector? then g.elem else g, if h.Vector? then h.elem else h, ref);
    }
  }

  lemma {:induction false} ShapeStays(a: Kind, b: Kind, c: Kind)
    ensures SameShape(a, a)
    ensures SameShape(a, b) && SameShape(b, c) ==> SameShape(a, c)
  {
    if a.TableType? {
      forall j | 0 <= j < |a.fields| ensures SameNesting(a.fields[j], a.fields[j]) {
        NestingStays(a.fields[j], a.fields[j], a.fields[j], TypeRef([], [], []));
      }
      if SameShape(a, b) && SameShape(b, c) {
        forall j | 0 <= j < |a.fields| ensures SameNesting(a.fields[j], c.fields[j]) {
          NestingStays(a.fields[j], b.fields[j], c.fields[j], TypeRef([], [], []));
        }
      }
    }
  }

  lemma {:induction false} SetSlotSets(kind: Kind, j: nat, ref: TypeRef, x: nat)
    requires j < Slots(kind) && x < Slots(kind) && SlotRef(kind, j).Some?
    ensures var r := SetSlot(kind, j, ref); SameShape(r, kind) && SlotRef(r, x) == if x == j then Some(ref)
        else SlotRef(kind, x)
  {
    if kind.TableType? {
      SetFieldRefSets(kind.fields[j], ref);
      forall i | 0 <= i < |kind.fields| ensures SameNesting(SetSlot(kind, j, ref).fields[i], kind.fields[i]) {
        NestingStays(kind.fields[i], kind.fields[i], kind.fields[i], ref);
      }
    }
  }

  // ---------------------------------------------------------------- resolving all references

  ghost predicate IsSlot(types: Types, k: string, j: nat) {
    k in types && j < Slots(types[k].kind)
  }

  /** Slot (k, j) comes before slot n of the i-th type. */
  ghost predicate Done(order: seq<string>, i: nat, n: nat, k: string, j: nat) {
    (exists x :: 0 <= x < i && x < |order| && order[x] == k) || (i < |order| && order[i] == k && j < n)
  }

  /** The reference is no reference, or known. */
  ghost predicate Resolvable(types: Types, k: string, j: nat)
    requires IsSlot(types, k, j)
  {
    var ref := SlotRef(types[k].kind, j);
    ref.Some? ==> Bind(types.Keys, ref.value).Some?
  }

  function Resolved(keys: set<string>, ref: Option<TypeRef>): Option<TypeRef> {
    if ref.Some? && Bind(keys, ref.value).Some? then Some(ref.value.(resolved := Bind(keys, ref.value).value)) else ref
  }

  /** A value of a union, or a field of a table, of type k refers to table key. */
  ghost predicate RefersTo(types: Types, k: string, j: nat, key: string, inUnion: bool) {
    && IsSlot(types, k, j) && (types[k].kind.UnionType? <==> inUnion)
    && var ref := SlotRef(types[k].kind, j);
    && ref.Some? && Bind(types.Keys, ref.value).Some? && Join(Bind(types.Keys, ref.value).value) == key
    && key in types && types[key].kind.TableType?
  }

  ghost predicate Used(types: Types, order: seq<string>, i: nat, n: nat, key: string, inUnion: bool) {
    exists k, j :: Done(order, i, n, k, j) && RefersTo(types, k, j, key, inUnion)
  }

  /** Type k with its done slots resolved, its other slots as they were, and its flags set if it has been used. */
  ghost predicate TypeAfter(types: Types, r: Types, order: seq<string>, i: nat, n: nat, k: string)
    requires k in types && k in r
  {
    && r[k].file == types[k].file && r[k].fqtn == types[k].fqtn && SameShape(r[k].kind, types[k].kind)
    && (forall j | 0 <= j < Slots(types[k].kind) :: SlotAfter(types, r, order, i, n, k, j))
    && (r[k].usedInTable <==> types[k].usedInTable || Used(types, order, i, n, k, false))
    && (r[k].usedInUnion <==> types[k].usedInUnion || Used(types, order, i, n, k, true))
  }

  ghost predicate SlotAfter(types: Types, r: Types, order: seq<string>, i: nat, n: nat, k: string, j: nat)
    requires k in types && k in r && j < Slots(types[k].kind) == Slots(r[k].kind)
  {
    SlotRef(r[k].kind, j) ==
      if Done(order, i, n, k, j) then Resolved(types.Keys, SlotRef(types[k].kind, j)) else SlotRef(types[k].kind, j)
  }

  ghost predicate After(types: Types, r: Types, order: seq<string>, i: nat, n: nat) {
    r.Keys == types.Keys && forall k | k in types :: TypeAfter(types, r, order, i, n, k)
  }

  ghost predicate Distinct(order: seq<string>) {
    forall i, j | 0 <= i < j < |order| :: order[i] != order[j]
  }

  lemma {:induction false} NothingDone(types: Types, order: seq<string>)
    ensures After(types, types, order, 0, 0)
  {
    forall k | k in types ensures TypeAfter(types, types, order, 0, 0, k) {
      ShapeStays(types[k].kind, types[k].kind, types[k].kind);
    }
  }

  /** After the last slot of a type comes the first of the next. */
  lemma {:induction false} NextType(types: Types, r: Types, order: seq<string>, i: nat, n: nat)
    requires i < |order| && order[i] in types && n == Slots(types[order[i]].kind) && After(types, r, order, i, n)
    ensures After(types, r, order, i + 1, 0)
  {
    forall k, j | IsSlot(types, k, j) ensures Done(order, i + 1, 0, k, j) <==> Done(order, i, n, k, j) {
      if order[i] == k { assert Done(order, i + 1, 0, k, j); }
    }
    var next: nat := i + 1;
    forall k | k in types ensures TypeAfter(types, r, order, next, 0, k) {
      assert TypeAfter(types, r, order, i, n, k);
      forall j | 0 <= j < Slots(types[k].kind) ensures SlotAfter(types, r, order, next, 0, k, j) {
        assert SlotAfter(types, r, order, i, n, k, j);
      }
      UsedSame(types, order, i, n, i + 1, 0, k, false);
      UsedSame(types, order, i, n, i + 1, 0, k, true);
    }
  }

  lemma {:induction false} UsedSame(types: Types, order: seq<string>, i: nat, n: nat, i': nat, n': nat, key: string,
                                    inUnion: bool)
    requires forall k, j | IsSlot(types, k, j) :: Done(order, i, n, k, j) <==> Done(order, i', n', k, j)
    ensures Used(types, order, i, n, key, inUnion) <==> Used(types, order, i', n', key, inUnion)
  {
    hide Done;
  }

  lemma {:induction false} OneMoreDone(order: seq<string>, i: nat, n: nat, k: string, j: nat)
    requires i < |order| && Distinct(order)
    ensures Done(order, i, n + 1, k, j) <==> Done(order, i, n, k, j) || (k == order[i] && j == n)
    ensures !Done(order, i, n, order[i], n)
  {}

  lemma {:induction false} OneMoreUsed(types: Types, order: seq<string>, i: nat, n: nat, key: string, inUnion: bool)
    requires i < |order| && Distinct(order)
    ensures Used(types, order, i, n + 1, key, inUnion) <==>
      Used(types, order, i, n, key, inUnion) || RefersTo(types, order[i], n, key, inUnion)
  {
    hide Done, RefersTo;
    OneMoreDone(order, i, n, order[i], n);
    if k, j :| Done(order, i, n + 1, k, j) && RefersTo(types, k, j, key, inUnion) {
      OneMoreDone(order, i, n, k, j);
    }
    if k, j :| Done(order, i, n, k, j) && RefersTo(types, k, j, key, inUnion) {
      OneMoreDone(order, i, n, k, j);
    }
  }

  /** What one step makes of type k. */
  lemma {:induction false} StepAt(r: Types, k0: string, n: nat, k: string)
    requires IsSlot(r, k0, n) && k in r && ResolveSlot(r, k0, n).Some?
    ensures var t, ref := ResolveSlot(r, k0, n).value, SlotRef(r[k0].kind, n);
      && t.Keys == r.Keys && t[k].file == r[k].file && t[k].fqtn == r[k].fqtn && SameShape(t[k].kind, r[k].kind)
      && (t[k].usedInTable <==> r[k].usedInTable || RefersTo(r, k0, n, k, false))
      && (t[k].usedInUnion <==> r[k].usedInUnion || RefersTo(r, k0, n, k, true))
      && forall j | 0 <= j < Slots(r[k].kind) ::
           SlotRef(t[k].kind, j) == if k == k0 && j == n then Resolved(r.Keys, ref) else SlotRef(r[k].kind, j)
  {
    var ref := SlotRef(r[k0].kind, n);
    ShapeStays(r[k].kind, r[k].kind, r[k].kind);
    if ref.Some? {
      var fqtn := Bind(r.Keys, ref.value).value;
      var u := SetRef(r, k0, n, ref.value.(resolved := fqtn));
      forall j | 0 <= j < Slots(r[k0].kind) {
        SetSlotSets(r[k0].kind, n, ref.value.(resolved := fqtn), j);
      }
      assert u.Keys == r.Keys;
      MarkAt(u, fqtn, r[k0].kind.UnionType?, k);
    }
  }

  lemma {:induction false} MarkAt(u: Types, fqtn: seq<string>, inUnion: bool, k: string)
    requires k in u
    ensures var t := Mark(u, fqtn, inUnion); var hit := k == Join(fqtn) && u[k].kind.TableType?;
      && t.Keys == u.Keys && t[k].kind == u[k].kind && t[k].file == u[k].file && t[k].fqtn == u[k].fqtn
      && (t[k].usedInTable <==> u[k].usedInTable || (hit && !inUnion))
      && (t[k].usedInUnion <==> u[k].usedInUnion || (hit && inUnion))
  {}

  /** A slot that is not done refers to what it referred to in the beginning. */
  lemma {:induction false} SlotNotDone(types: Types, r: Types, order: seq<string>, i: nat, n: nat)
    requires i < |order| && Distinct(order) && After(types, r, order, i, n) && IsSlot(types, order[i], n)
    ensures IsSlot(r, order[i], n) && SlotRef(r[order[i]].kind, n) == SlotRef(types[order[i]].kind, n)
    ensures forall key, inUnion :: RefersTo(r, order[i], n, key, inUnion) <==>
        RefersTo(types, order[i], n, key, inUnion)
  {
    var k0 := order[i];
    OneMoreDone(order, i, n, k0, n);
    assert TypeAfter(types, r, order, i, n, k0);
    assert SlotAfter(types, r, order, i, n, k0, n);
    forall key, inUnion ensures RefersTo(r, k0, n, key, inUnion) <==> RefersTo(types, k0, n, key, inUnion) {
      if key in types { assert TypeAfter(types, r, order, i, n, key); }
    }
  }

  /** Resolving the next slot fails iff it is not resolvable; otherwise one more slot is done. */
  lemma {:induction false} SlotStep(types: Types, r: Types, order: seq<string>, i: nat, n: nat)
    requires i < |order| && Distinct(order) && After(types, r, order, i, n) && IsSlot(types, order[i], n)
    ensures IsSlot(r, order[i], n)
    ensures ResolveSlot(r, order[i], n).Some? <==> Resolvable(types, order[i], n)
    ensures ResolveSlot(r, order[i], n).Some? ==> After(types, ResolveSlot(r, order[i], n).value, order, i, n + 1)
  {
    SlotNotDone(types, r, order, i, n);
    if ResolveSlot(r, order[i], n).Some? {
      var t := ResolveSlot(r, order[i], n).value;
      StepAt(r, order[i], n, order[i]);
      forall k | k in types ensures TypeAfter(types, t, order, i, n + 1, k) {
        TypeStep(types, r, t, order, i, n, k);
      }
    }
  }

  lemma {:induction false} TypeStep(types: Types, r: Types, t: Types, order: seq<string>, i: nat, n: nat, k: string)
    requires i < |order| && Distinct(order) && After(types, r, order, i, n) && IsSlot(types, order[i], n)
        && IsSlot(r, order[i], n)
    requires ResolveSlot(r, order[i], n) == Some(t) && k in types && k in t
    ensures TypeAfter(types, t, order, i, n + 1, k)
  {
    SlotNotDone(types, r, order, i, n);
    StepAt(r, order[i], n, k);
    assert TypeAfter(types, r, order, i, n, k);
    OneMoreUsed(types, order, i, n, k, false);
    OneMoreUsed(types, order, i, n, k, true);
    ShapeStays(t[k].kind, r[k].kind, types[k].kind);
    hide ResolveSlot, RefersTo, Used, Bind, SameFields;
    var next: nat := n + 1;
    forall j | 0 <= j < Slots(types[k].kind) ensures SlotAfter(types, t, order, i, next, k, j) {
      OneMoreDone(order, i, n, k, j);
      assert SlotAfter(types, r, order, i, n, k, j);
    }
  }

  // ---------------------------------------------------------------- the whole schema

  /** Type k refers to table key in a value (of a union) or a field (of a table), or it is the root type. */
  ghost predicate UsedAtAll(types: Types, root: Option<TypeRef>, key: string, inUnion: bool) {
    || (exists k, j :: RefersTo(types, k, j, key, inUnion))
    || (!inUnion && root.Some? && Bind(types.Keys, root.value).Some? && Join(Bind(types.Keys, root.value).value) == key)
  }

  ghost predicate AllResolvable(types: Types, root: Option<TypeRef>) {
    && (forall k, j | IsSlot(types, k, j) :: Resolvable(types, k, j))
    && (root.Some? ==> Bind(types.Keys, root.value).Some?)
  }

  /** A type of the finished schema: every reference bound, every flag set as it should be. */
  ghost predicate Finished(types: Types, r: Types, root: Option<TypeRef>, k: string)
    requires k in types && k in r
  {
    && r[k].file == types[k].file && r[k].fqtn == types[k].fqtn && SameShape(r[k].kind, types[k].kind)
    && (forall j | 0 <= j < Slots(types[k].kind) ::
      SlotRef(r[k].kind, j) == Resolved(types.Keys, SlotRef(types[k].kind, j)))
    && (r[k].kind.TableType? ==>
          && (r[k].usedInTable <==> types[k].usedInTable || UsedAtAll(types, root, k, false))
          && (r[k].usedInUnion <==> types[k].usedInUnion || UsedAtAll(types, root, k, true)))
  }

  lemma {:induction false} AllDone(types: Types, order: seq<string>, k: string, j: nat)
    requires (forall x | x in types :: x in order) && IsSlot(types, k, j)
    ensures Done(order, |order|, 0, k, j)
  {}

  /** All slots done and the root marked: the schema is finished. */
  lemma {:induction false} AllDoneFinished(types: Types, r: Types, order: seq<string>, root: Option<TypeRef>, t: Types)
    requires After(types, r, order, |order|, 0) && forall x | x in types :: x in order
    requires root.Some? ==> Bind(types.Keys, root.value).Some?
    requires t == if root.Some? then Mark(r, Bind(types.Keys, root.value).value, false) else r
    ensures t.Keys == types.Keys && forall k | k in types :: Finished(types, t, root, k)
  {
    forall k | k in types ensures k in t && Finished(types, t, root, k) {
      TypeFinished(types, r, order, root, t, k);
    }
    if root.Some? { assert t.Keys == r.Keys; }
  }

  lemma {:induction false} TypeFinished(types: Types, r: Types, order: seq<string>, root: Option<TypeRef>, t: Types,
                                        k: string)
    requires After(types, r, order, |order|, 0) && (forall x | x in types :: x in order) && k in types
    requires root.Some? ==> Bind(types.Keys, root.value).Some?
    requires t == if root.Some? then Mark(r, Bind(types.Keys, root.value).value, false) else r
    ensures k in t && Finished(types, t, root, k)
  {
    assert TypeAfter(types, r, order, |order|, 0, k);
    if root.Some? { MarkAt(r, Bind(types.Keys, root.value).value, false, k); }
    forall j | 0 <= j < Slots(types[k].kind)
      ensures SlotRef(r[k].kind, j) == Resolved(types.Keys, SlotRef(types[k].kind, j)) {
      AllDone(types, order, k, j);
      assert SlotAfter(types, r, order, |order|, 0, k, j);
    }
    AllUsed(types, order, k, false);
    AllUsed(types, order, k, true);
  }

  lemma {:induction false} AllUsed(types: Types, order: seq<string>, key: string, inUnion: bool)
    requires forall x | x in types :: x in order
    ensures Used(types, order, |order|, 0, key, inUnion) <==> exists k, j :: RefersTo(types, k, j, key, inUnion)
  {
    if k, j :| RefersTo(types, k, j, key, inUnion) { AllDone(types, order, k, j); }
  }

  // ---------------------------------------------------------------- what the loops keep

  /** Splitting a name at its dots gives at least one part. */
  ghost predicate InputOk(types: Types, k: string, j: nat) {
    IsSlot(types, k, j) && (SlotRef(types[k].kind, j).Some? ==> |SlotRef(types[k].kind, j).value.input| > 0)
  }

  ghost predicate InputsOk(types: Types) {
    forall k, j | IsSlot(types, k, j) :: InputOk(types, k, j)
  }

  ghost predicate DoneResolvable(types: Types, order: seq<string>, i: nat, n: nat) {
    forall k, j | IsSlot(types, k, j) && Done(order, i, n, k, j) :: Resolvable(types, k, j)
  }

  lemma {:induction false} SameSlots(types: Types, r: Types, order: seq<string>, i: nat)
    requires i < |order| && order[i] in types && After(types, r, order, i, 0)
    ensures order[i] in r && Slots(r[order[i]].kind) == Slots(types[order[i]].kind)
  {
    assert TypeAfter(types, r, order, i, 0, order[i]);
  }

  lemma {:induction false} InputStays(types: Types, r: Types, order: seq<string>, i: nat, n: nat)
    requires i < |order| && Distinct(order) && After(types, r, order, i, n) && IsSlot(types, order[i], n)
        && InputsOk(types)
    ensures InputOk(r, order[i], n)
  {
    SlotNotDone(types, r, order, i, n);
    assert InputOk(types, order[i], n);
  }

  lemma {:induction false} DoneNext(types: Types, order: seq<string>, i: nat, n: nat)
    requires i < |order| && Distinct(order) && DoneResolvable(types, order, i, n) && IsSlot(types, order[i], n)
        && Resolvable(types, order[i], n)
    ensures DoneResolvable(types, order, i, n + 1)
  {
    forall k, j | IsSlot(types, k, j) && Done(order, i, n + 1, k, j) ensures Resolvable(types, k, j) {
      OneMoreDone(order, i, n, k, j);
    }
  }

  lemma {:induction false} DoneNextType(types: Types, order: seq<string>, i: nat, n: nat)
    requires i < |order| && order[i] in types && n == Slots(types[order[i]].kind) && DoneResolvable(types, order, i, n)
    ensures DoneResolvable(types, order, i + 1, 0)
  {
    forall k, j | IsSlot(types, k, j) && Done(order, i + 1, 0, k, j) ensures Resolvable(types, k, j) {
      assert Done(order, i, n, k, j);
    }
  }

  lemma {:induction false} AllDoneResolvable(types: Types, order: seq<string>)
    requires DoneResolvable(types, order, |order|, 0) && forall k | k in types :: k in order
    ensures forall k, j | IsSlot(types, k, j) :: Resolvable(types, k, j)
  {
    forall k, j | IsSlot(types, k, j) ensures Resolvable(types, k, j) {
      AllDone(types, order, k, j);
    }
  }
}
