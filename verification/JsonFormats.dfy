/** Which format of a message is detected. */
module JsonFormats {
  import opened JsonModel
  import opened JsonTheorems
  import opened JsonResults
  import opened FixJson
  import opened JsonDetails

  /** Somewhere inside, an object that stands under a name (other than `_type`) has a `_type`. */
  ghost predicate NamedTag(v: Json) {
    match v
    case Leaf(_) => false
    case Arr(items) => exists i :: 0 <= i < |items| && NamedTag(items[i])
    case Obj(ms) => exists j :: 0 <= j < |ms| && ms[j].key != TYPE_KEY && (Tagged(ms[j].value) || NamedTag(ms[j].value))
  }

  lemma {:induction false} MovesItemsIff(v: Json, n: nat)
    requires v.Arr? && n <= |v.items|
    ensures MovesItems(v, n) <==> exists i :: 0 <= i < n && Moves(v.items[i])
  {
    if n > 0 { MovesItemsIff(v, n - 1); }
  }

  lemma {:induction false} MovesFirstIff(v: Json, n: nat)
    requires v.Obj? && n <= |v.members|
    ensures MovesFirst(v, n) <==> exists i :: (0 <= i < n && IsTag(v.members, i)
      && (Moves(v.members[i].value) || MovesField(v.members[UnionOf(v.members, i)].value)))
  {
    hide Moves, MovesField, IsTag, UnionOf;
    if n > 0 { MovesFirstIff(v, n - 1); }
  }

  lemma {:induction false} MovesSecondIff(v: Json, n: nat)
    requires v.Obj? && n <= |v.members|
    ensures MovesSecond(v, n) <==> exists j :: 0 <= j < n && IsLeft(v.members, j) && MovesField(v.members[j].value)
  {
    hide Moves, MovesField, IsLeft;
    if n > 0 { MovesSecondIff(v, n - 1); }
  }

  /** Every member but `_type` is a tag, a union or left; and what is visited is none but these. */
  lemma {:induction false} MovesObjectIff(v: Json)
    requires v.Obj? && Clean(v.members)
    ensures Moves(v) <==> exists j ::
        0 <= j < |v.members| && v.members[j].key != TYPE_KEY
        && MovesField(v.members[j].value)
  {
    var ms := v.members;
    MovesFirstIff(v, |ms|);
    MovesSecondIff(v, |ms|);
    assert Moves(v) <==> MovesFirst(v, |ms|) || MovesSecond(v, |ms|);
    forall i | 0 <= i < |ms| && IsTag(ms, i)
      ensures ms[i].key != TYPE_KEY && ms[UnionOf(ms, i)].key != TYPE_KEY
    {
      TagNotOdd(ms, i);
    }
    forall j | 0 <= j < |ms| && ms[j].key != TYPE_KEY && !IsLeft(ms, j) && MovesField(ms[j].value)
      ensures MovesFirst(v, |ms|)
    {
      WrittenHas(ms, |ms|, ms[j].key);
      var i: nat :| i < |ms| && FromPair(ms, i, ms[j].key);
      FindAt(ms, j);
      if ms[j].key == ms[i].key { TagNotTagged(ms, i); }
    }
  }

  /** The flag for tags inside unions tells exactly whether the message has one under a name. */
  lemma {:induction false} MovesIff(v: Json)
    requires CleanTree(v)
    ensures Moves(v) <==> NamedTag(v)
  {
    match v
    case Leaf(_) =>
    case Arr(items) =>
      forall i | 0 <= i < |items| ensures Moves(items[i]) <==> NamedTag(items[i]) { MovesIff(items[i]); }
      MovesItemsIff(v, |items|);
    case Obj(ms) =>
      forall j | 0 <= j < |ms| ensures Moves(ms[j].value) <==> NamedTag(ms[j].value) { MovesIff(ms[j].value); }
      MovesObjectIff(v);
  }

  lemma {:induction false} NamedTagIff(v: Json)
    ensures NamedTag(v) <==> TypeInside(v)
  {
    match v
    case Leaf(_) =>
    case Arr(items) =>
      forall i | 0 <= i < |items| ensures NamedTag(items[i]) <==> TypeInside(items[i]) { NamedTagIff(items[i]); }
    case Obj(ms) =>
      forall j | 0 <= j < |ms|
        ensures NamedTag(ms[j].value) <==> TypeInside(ms[j].value)
        ensures Tagged(ms[j].value) <==> HasName(ms[j].value, "_type") {
        NamedTagIff(ms[j].value);
        TaggedIff(ms[j].value);
      }
  }

  // ---------------------------------------------------------------- the whole conversion

  /** The format told by a message: nothing but content, if it is to be wrapped; else whether a tag is inside. */
  ghost predicate FormatStands(v: Json, format: JsonFormat) {
    match format
    case ContentOnlyTypesInUnions => ToWrap(v)
    case TypesInUnions => !ToWrap(v) && TypeInside(v)
    case DefaultFlatbuffers => !ToWrap(v) && !TypeInside(v)
  }

  /** Converts a message and tells which format it was found in. */
  method ConvertMessage(v: Json, target: string) returns (written: seq<Token>, format: JsonFormat)
    requires Named(v)
    ensures exists r :: RootStands(v, target, r) && written == Tokens(r)
    ensures format == ContentOnlyTypesInUnions <==> ToWrap(v)
    ensures CleanTree(v) ==> FormatStands(v, format)
  {
    hide Tokens, Fixed, Moves, Named, TypeInside, RootStands, ToWrap, FixedRoot;
    var converter := new JsonConverter(target);
    converter.Fix(v);
    RootWrittenOut(v, target);
    if CleanTree(v) {
      MovesIff(v);
      NamedTagIff(v);
    }
    written, format := converter.writer, converter.DetectedFormat();
    assert written == Tokens(FixedRoot(v, target));
  }
}
