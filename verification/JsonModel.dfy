/**
 Making messages out of JSON: a member `_type` of an object is moved out of it, to stand as `X_type` before the member X
 that has the object, and every tag `X_type` is put directly before its union X.
 */
module JsonModel {

  datatype Member = Member(key: string, value: Json)

  datatype Json = Obj(members: seq<Member>) | Arr(items: seq<Json>) | Leaf(text: string)

  const TYPE_KEY := "_type"

  // ---------------------------------------------------------------- keys

  predicate IsTypeKey(key: string) {
    |key| > 5 && key[|key| - 5..] == TYPE_KEY
  }

  function UnionKey(key: string): string
    requires IsTypeKey(key)
  {
    key[..|key| - 5]
  }

  function Tag(key: string): string {
    key + TYPE_KEY
  }

  /** The first member of that name, or |ms|. */
  function FindFrom(ms: seq<Member>, key: string, i: nat): (r: nat)
    requires i <= |ms|
    ensures i <= r <= |ms| && (r < |ms| ==> ms[r].key == key) && forall x | i <= x < r :: ms[x].key != key
    decreases |ms| - i
  {
    if i == |ms| || ms[i].key == key then i else FindFrom(ms, key, i + 1)
  }

  function Find(ms: seq<Member>, key: string): nat {
    FindFrom(ms, key, 0)
  }

  predicate Has(ms: seq<Member>, key: string) {
    Find(ms, key) < |ms|
  }

  /** An object with a `_type` inside. */
  predicate Tagged(v: Json) {
    v.Obj? && Has(v.members, TYPE_KEY)
  }

  /** Member i is the tag of a union of the same object. */
  predicate IsTag(ms: seq<Member>, i: nat)
    requires i < |ms|
  {
    IsTypeKey(ms[i].key) && Has(ms, UnionKey(ms[i].key))
  }

  /** Where the union of tag i is. */
  function UnionOf(ms: seq<Member>, i: nat): (r: nat)
    requires i < |ms| && IsTag(ms, i)
    ensures r < |ms| && ms[r].key == UnionKey(ms[i].key)
  {
    Find(ms, UnionKey(ms[i].key))
  }

  // ---------------------------------------------------------------- what is written

  /** A value on its own: a `_type` in it is not written. */
  function Fixed(v: Json): Json
    decreases v, 1, 0
  {
    match v
    case Leaf(_) => v
    case Arr(items) => Arr(FixedItems(v, |items|))
    case Obj(ms) => Obj(FirstPass(v, |ms|) + SecondPass(v, |ms|))
  }

  function FixedItems(v: Json, n: nat): seq<Json>
    requires v.Arr? && n <= |v.items|
    decreases v, 0, n
  {
    if n == 0 then [] else FixedItems(v, n - 1) + [Fixed(v.items[n - 1])]
  }

  /** Member j under its key, and before it the tag found inside it. */
  function Field(v: Json, j: nat): seq<Member>
    requires v.Obj? && j < |v.members|
    decreases v, 0, 0
  {
    var m := v.members[j];
    (if Tagged(m.value) then [Member(Tag(m.key), Fixed(m.value.members[Find(m.value.members, TYPE_KEY)].value))]
      else [])
    + [Member(m.key, Fixed(m.value))]
  }

  /** Tags of the first n members, each with its union. */
  function FirstPass(v: Json, n: nat): seq<Member>
    requires v.Obj? && n <= |v.members|
    decreases v, 0, n + 1
  {
    if n == 0 then [] else FirstPass(v, n - 1) + Pair(v, n - 1)
  }

  function Pair(v: Json, i: nat): seq<Member>
    requires v.Obj? && i < |v.members|
    decreases v, 0, 1
  {
    if IsTag(v.members, i) then [Member(v.members[i].key, Fixed(v.members[i].value))] + Field(v, UnionOf(v.members, i))
        else []
  }

  /** The keys the first pass has written for the first n members. */
  function Written(ms: seq<Member>, n: nat): set<string>
    requires n <= |ms|
  {
    if n == 0 then {}
    else Written(ms, n - 1) + if IsTag(ms, n - 1) then {ms[n - 1].key, UnionKey(ms[n - 1].key)} else {}
  }

  predicate IsLeft(ms: seq<Member>, j: nat)
    requires j < |ms|
  {
    ms[j].key != TYPE_KEY && ms[j].key !in Written(ms, |ms|)
  }

  /** What is left of the first n members. */
  function SecondPass(v: Json, n: nat): seq<Member>
    requires v.Obj? && n <= |v.members|
    decreases v, 0, n + 1
  {
    if n == 0 then [] else SecondPass(v, n - 1) + if IsLeft(v.members, n - 1) then Field(v, n - 1) else []
  }

  // ---------------------------------------------------------------- the root

  predicate IsMessage(v: Json) {
    v.Obj? && Has(v.members, "destination") && Has(v.members, "content")
  }

  /** An object that is the root gets an id, if it has none. */
  function WithId(v: Json): seq<Member>
    requires v.Obj?
  {
    Fixed(v).members + if Has(v.members, "id") then [] else [Member("id", Leaf("1"))]
  }

  /** An object that is no message becomes the content of one. */
  function FixedRoot(v: Json, target: string): Json {
    if !v.Obj? then Fixed(v)
    else if IsMessage(v) then Obj(WithId(v))
    else
      var tag := if Tagged(v) then [Member(Tag("content"), Fixed(v.members[Find(v.members, TYPE_KEY)].value))] else [];
      Obj([Member("destination", Obj([Member("target", Leaf(target))]))] + tag + [Member("content", Obj(WithId(v)))])
  }

  // ---------------------------------------------------------------- the writer

  datatype Token = StartObject | EndObject | StartArray | EndArray | Key(name: string) | Text(text: string)

  function Tokens(v: Json): seq<Token>
    decreases v, 0, 0
  {
    match v
    case Leaf(text) => [Text(text)]
    case Arr(items) => [StartArray] + ItemTokens(items, |items|) + [EndArray]
    case Obj(ms) => [StartObject] + MemberTokens(ms, |ms|) + [EndObject]
  }

  function ItemTokens(items: seq<Json>, n: nat): seq<Token>
    requires n <= |items|
    decreases items, 1, n
  {
    if n == 0 then [] else ItemTokens(items, n - 1) + Tokens(items[n - 1])
  }

  function MemberTokens(ms: seq<Member>, n: nat): seq<Token>
    requires n <= |ms|
    decreases ms, 1, n
  {
    if n == 0 then [] else MemberTokens(ms, n - 1) + [Key(ms[n - 1].key)] + Tokens(ms[n - 1].value)
  }
}
