/**
  The fingerprint of a request body and what it preserves (idempotency.go). A body
  without colliding keys is hashed in a canonical form; equal fingerprints then bind
  to equal requests, whatever the order of members and of the service names.
 */
module Fingerprint {
  import opened Text
  import opened Json

  /** A decoded value: an object is a map, the last of equal keys winning. */
  datatype Canon =
    | CNull
    | CBool(b: bool)
    | CNumber(text: Name)
    | CStr(text: Name)
    | CArr(items: seq<Canon>)
    | CObj(members: map<Name, Canon>)

  function Decoded(v: Json): Canon {
    match v
    case Null => CNull
    case Bool(b) => CBool(b)
    case Number(t) => CNumber(t)
    case Str(t) => CStr(t)
    case Arr(items) => CArr(DecodedItems(items))
    case Obj(ms) => CObj(DecodedMembers(ms))
  }

  function DecodedItems(items: seq<Json>): (r: seq<Canon>)
    ensures |r| == |items|
  {
    if items == [] then [] else [Decoded(items[0])] + DecodedItems(items[1..])
  }

  function DecodedMembers(ms: seq<Member>): map<Name, Canon> {
    if ms == [] then map[]
    else
      var rest := DecodedMembers(ms[1..]);
      if ms[0].key in rest then rest else rest[ms[0].key := Decoded(ms[0].value)]
  }

  // ---- names in order ------------------------------------------------------------------

  predicate Precedes(a: Name, b: Name) {
    b != [] && (a == [] || a[0] < b[0] || (a[0] == b[0] && Precedes(a[1..], b[1..])))
  }

  lemma {:induction false} BeforeTotal(a: Name, b: Name)
    ensures Precedes(a, b) || a == b || Precedes(b, a)
    ensures !(Precedes(a, b) && Precedes(b, a)) && !Precedes(a, a)
  {
    if a != [] {
      BeforeTotal(a[1..], a[1..]);
    }
    if a != [] && b != [] {
      BeforeTotal(a[1..], b[1..]);
      assert a == [a[0]] + a[1..] && b == [b[0]] + b[1..];
    }
  }

  lemma {:induction false} BeforeTransitive(a: Name, b: Name, c: Name)
    requires Precedes(a, b) && Precedes(b, c)
    ensures Precedes(a, c)
  {
    if a != [] && a[0] == b[0] == c[0] {
      BeforeTransitive(a[1..], b[1..], c[1..]);
    }
  }

  /** Strictly ascending: sorted, and without duplicates. */
  predicate Ascending(names: seq<Name>) {
    forall i, j :: 0 <= i < j < |names| ==> Precedes(names[i], names[j])
  }

  function Inserted(names: seq<Name>, x: Name): seq<Name> {
    if names == [] || Precedes(x, names[0]) then [x] + names
    else if x == names[0] then names
    else [names[0]] + Inserted(names[1..], x)
  }

  /** slices.Compact of the sorted names. */
  function SortedSet(names: seq<Name>): seq<Name> {
    if names == [] then [] else Inserted(SortedSet(names[1..]), names[0])
  }

  lemma {:induction false} InsertedAscends(names: seq<Name>, x: Name)
    requires Ascending(names)
    ensures Ascending(Inserted(names, x))
    ensures forall y :: y in Inserted(names, x) <==> y == x || y in names
  {
    hide Precedes;
    if names == [] {
    } else if Precedes(x, names[0]) {
      forall j | 0 <= j < |names|
        ensures Precedes(x, names[j])
      {
        if j > 0 { BeforeTransitive(x, names[0], names[j]); }
      }
    } else if x != names[0] {
      assert Ascending(names[1..]);
      InsertedAscends(names[1..], x);
      BeforeTotal(x, names[0]);
      var rest := Inserted(names[1..], x);
      forall j | 0 <= j < |rest|
        ensures Precedes(names[0], rest[j])
      {
        if rest[j] != x {
          assert rest[j] in names[1..];
          var i :| 0 <= i < |names[1..]| && names[1..][i] == rest[j];
          assert names[i + 1] == rest[j];
        }
      }
    }
  }

  lemma {:induction false} SortedSetAscends(names: seq<Name>)
    ensures Ascending(SortedSet(names)) && forall y :: y in SortedSet(names) <==> y in names
  {
    if names != [] {
      SortedSetAscends(names[1..]);
      InsertedAscends(SortedSet(names[1..]), names[0]);
      hide Ascending, Inserted;
      assert names == [names[0]] + names[1..];
    }
  }

  /** A strictly ascending list is determined by its elements. */
  lemma {:induction false} AscendingIsUnique(a: seq<Name>, b: seq<Name>)
    requires Ascending(a) && Ascending(b) && forall y :: y in a <==> y in b
    ensures a == b
  {
    hide Precedes;
    assert b != [] ==> b[0] in b;
    assert a != [] ==> a[0] in a;
    if a != [] {
      FirstIsSame(a, b);
      forall y
        ensures y in a[1..] <==> y in b[1..]
      {
        InRest(a, y);
        InRest(b, y);
      }
      AscendingIsUnique(a[1..], b[1..]);
      assert a == [a[0]] + a[1..] && b == [b[0]] + b[1..];
    }
  }

  lemma InRest(a: seq<Name>, y: Name)
    requires a != [] && Ascending(a)
    ensures y in a[1..] <==> y in a && y != a[0]
  {
    hide Precedes;
    assert a == [a[0]] + a[1..];
    if y in a[1..] {
      var i :| 0 <= i < |a[1..]| && a[1..][i] == y;
      assert Precedes(a[0], a[i + 1]);
      BeforeTotal(a[0], a[0]);
    }
  }

  lemma FirstIsSame(a: seq<Name>, b: seq<Name>)
    requires a != [] && b != [] && Ascending(a) && Ascending(b) && forall y :: y in a <==> y in b
    ensures a[0] == b[0]
  {
    hide Precedes;
    assert a[0] in a && b[0] in b;
    var i :| 0 <= i < |b| && b[i] == a[0];
    var j :| 0 <= j < |a| && a[j] == b[0];
    if i > 0 && j > 0 {
      BeforeTotal(a[0], b[0]);
    }
  }

  function Elements(names: seq<Name>): set<Name> {
    set x | x in names
  }

  /** Sorted and deduplicated, two lists are equal exactly when they name the same services. */
  lemma SortedSetExactly(a: seq<Name>, b: seq<Name>)
    ensures SortedSet(a) == SortedSet(b) <==> Elements(a) == Elements(b)
  {
    SortedSetAscends(a);
    SortedSetAscends(b);
    hide Ascending, SortedSet;
    if Elements(a) == Elements(b) {
      forall y
        ensures y in SortedSet(a) <==> y in SortedSet(b)
      {
        assert y in a <==> y in Elements(a);
        assert y in b <==> y in Elements(b);
      }
      AscendingIsUnique(SortedSet(a), SortedSet(b));
    }
    if SortedSet(a) == SortedSet(b) {
      assert forall y :: y in a <==> y in b;
    }
  }

  // ---- the canonical form ------------------------------------------------------------------

  const SERVICES: Name := ['s' as int, 'e' as int, 'r' as int, 'v' as int, 'i' as int, 'c' as int, 'e' as int, 's' as int]

  predicate AllNames(items: seq<Canon>) {
    forall i :: 0 <= i < |items| ==> items[i].CStr?
  }

  function NamesOf(items: seq<Canon>): (r: seq<Name>)
    requires AllNames(items)
    ensures |r| == |items| && forall i :: 0 <= i < |items| ==> r[i] == items[i].text
  {
    seq(|items|, i requires 0 <= i < |items| => items[i].text)
  }

  function Strings(names: seq<Name>): (r: seq<Canon>)
    ensures |r| == |names| && forall i :: 0 <= i < |names| ==> r[i] == CStr(names[i])
  {
    seq(|names|, i requires 0 <= i < |names| => CStr(names[i]))
  }

  /** normalizeServiceSet: a top-level list of names is sorted and deduplicated. */
  function Normalized(c: Canon): Canon {
    if c.CObj? && SERVICES in c.members && c.members[SERVICES].CArr? && AllNames(c.members[SERVICES].items)
    then CObj(c.members[SERVICES := CArr(Strings(SortedSet(NamesOf(c.members[SERVICES].items))))])
    else c
  }

  method NormalizeServiceSet(c: Canon) returns (r: Canon)
    ensures r == Normalized(c)
  {
    if !c.CObj? || SERVICES !in c.members || !c.members[SERVICES].CArr? {
      return c;
    }
    var list := c.members[SERVICES].items;
    var names: seq<Name> := [];
    for i := 0 to |list|
      invariant AllNames(list[..i]) && names == NamesOf(list[..i])
    {
      if !list[i].CStr? {
        return c;
      }
      assert list[..i + 1] == list[..i] + [list[i]];
      names := names + [list[i].text];
    }
    assert list[..|list|] == list;
    var sorted := SortedSet(names);
    var items: seq<Canon> := [];
    for i := 0 to |sorted|
      invariant items == Strings(sorted[..i])
    {
      items := items + [CStr(sorted[i])];
    }
    assert sorted[..|sorted|] == sorted;
    return CObj(c.members[SERVICES := CArr(items)]);
  }

  /** What is hashed: a canonical form, or the bytes as sent. */
  datatype Hashed = Canonical(value: Canon) | Bytes(raw: string)

  /**
    encoding/json's decoder: `first` is the value a text starts with, None when there
    is none or it is malformed, and `more` says whether something that is no closing
    bracket follows it.
   */
  datatype Decoder = Decoder(first: string -> Option<Json>, more: string -> bool)

  /** No value starts with white space, and white space at the end of a text makes no difference to its first value. */
  ghost predicate ReadsJson(d: Decoder) {
    && (forall x :: d.first(TrimRight(x)) == d.first(x))
    && (forall x :: x != "" && IsSpace(DecodeRune(x).code) ==> d.first(x).None?)
  }

  /** bodyFingerprint, before the hash: of the body without the white space around it. */
  function Fingerprinted(raw: string, d: Decoder, fold: Name -> Name): Hashed {
    var x := Trim(raw);
    match d.first(x)
    case Some(v) => if d.more(x) || Collides(v, fold) then Bytes(x) else Canonical(Normalized(Decoded(v)))
    case None => Bytes(x)
  }

  // ---- binding a body to a request -----------------------------------------------------------

  /** The type a value is decoded into. */
  datatype Schema =
    | Anything
    | NameSet
    | ListOf(item: Schema)
    | Struct(fields: map<Name, Schema>)

  datatype Bound =
    | Unset
    | Mismatch
    | Value(value: Canon)
    | NamesBound(names: set<Name>)
    | ListBound(items: seq<Bound>)
    | StructBound(fields: map<Name, Bound>)

  predicate Matches(key: Name, field: Name, fold: Name -> Name) {
    fold(key) == fold(field)
  }

  predicate AllStr(items: seq<Json>) {
    forall i :: 0 <= i < |items| ==> items[i].Str?
  }

  function Texts(items: seq<Json>): set<Name>
    requires AllStr(items)
  {
    set i | 0 <= i < |items| :: items[i].text
  }

  /** The value a member sets a field to: the last member whose key folds to the field's. */
  function LastFor(ms: seq<Member>, field: Name, fold: Name -> Name): (r: Option<Json>)
    ensures r.Some? ==> exists i :: 0 <= i < |ms| && ms[i].value == r.value && Matches(ms[i].key, field, fold)
  {
    if ms == [] then None
    else if Matches(ms[|ms| - 1].key, field, fold) then Some(ms[|ms| - 1].value)
    else
      var r := LastFor(ms[..|ms| - 1], field, fold);
      assert forall i :: 0 <= i < |ms| - 1 ==> ms[..|ms| - 1][i] == ms[i];
      r
  }

  /** A body bound to a type: fields by folded key, the last one winning, names as a set. */
  function Bind(schema: Schema, v: Json, fold: Name -> Name): Bound
    decreases v
  {
    if v.Null? then Unset
    else
      match schema
      case Anything => Value(Decoded(v))
      case NameSet => if v.Arr? && AllStr(v.items) then NamesBound(Texts(v.items)) else Mismatch
      case ListOf(item) =>
        if v.Arr? then ListBound(seq(|v.items|, i requires 0 <= i < |v.items| => Bind(item, v.items[i], fold))) else Mismatch
      case Struct(fields) =>
        if v.Obj?
        then StructBound(map f | f in fields && LastFor(v.members, f, fold).Some? ::
                           Bind(fields[f], LastFor(v.members, f, fold).value, fold))
        else Mismatch
  }

  // ---- equal fingerprints bind equally --------------------------------------------------------

  lemma {:induction false} DecodedAt(ms: seq<Member>, fold: Name -> Name)
    requires !Repeats(ms, fold)
    ensures forall i :: 0 <= i < |ms| ==>
      ms[i].key in DecodedMembers(ms) && DecodedMembers(ms)[ms[i].key] == Decoded(ms[i].value)
    ensures forall k :: k in DecodedMembers(ms) ==> exists i :: 0 <= i < |ms| && ms[i].key == k
  {
    hide Decoded;
    if ms != [] {
      assert forall i :: 0 <= i < |ms| - 1 ==> ms[1..][i] == ms[i + 1];
      assert !Repeats(ms[1..], fold);
      DecodedAt(ms[1..], fold);
      forall k | k in DecodedMembers(ms)
        ensures exists i :: 0 <= i < |ms| && ms[i].key == k
      {
        if k in DecodedMembers(ms[1..]) {
          var i :| 0 <= i < |ms[1..]| && ms[1..][i].key == k;
          assert ms[i + 1].key == k;
        } else {
          assert ms[0].key == k;
        }
      }
      assert ms[0].key !in DecodedMembers(ms[1..]);
    }
  }

  lemma {:induction false} LastForFinds(ms: seq<Member>, field: Name, fold: Name -> Name, i: nat)
    requires i < |ms| && Matches(ms[i].key, field, fold)
    ensures LastFor(ms, field, fold).Some?
  {
    if !Matches(ms[|ms| - 1].key, field, fold) {
      LastForFinds(ms[..|ms| - 1], field, fold, i);
    }
  }

  /** Without repeated keys the member a field is bound from is the only one that matches it. */
  lemma LastForIs(ms: seq<Member>, field: Name, fold: Name -> Name, i: nat)
    requires !Repeats(ms, fold) && i < |ms| && Matches(ms[i].key, field, fold)
    ensures LastFor(ms, field, fold) == Some(ms[i].value)
  {
    LastForFinds(ms, field, fold, i);
    var j :| 0 <= j < |ms| && ms[j].value == LastFor(ms, field, fold).value && Matches(ms[j].key, field, fold);
    OnlyOne(ms, fold, i, j);
  }

  lemma OnlyOne(ms: seq<Member>, fold: Name -> Name, i: nat, j: nat)
    requires !Repeats(ms, fold) && i < |ms| && j < |ms| && fold(ms[i].key) == fold(ms[j].key)
    ensures i == j
  {
  }

  lemma {:induction false} DecodedItemAt(items: seq<Json>)
    ensures forall i :: 0 <= i < |items| ==> DecodedItems(items)[i] == Decoded(items[i])
  {
    hide Decoded;
    if items != [] {
      DecodedItemAt(items[1..]);
      assert forall i :: 0 < i < |items| ==> items[1..][i - 1] == items[i];
    }
  }

  lemma NamesAreTexts(items: seq<Json>)
    ensures AllStr(items) <==> AllNames(DecodedItems(items))
    ensures AllStr(items) ==> Texts(items) == Elements(NamesOf(DecodedItems(items)))
  {
    DecodedItemAt(items);
    if AllStr(items) {
      var names := NamesOf(DecodedItems(items));
      assert forall i :: 0 <= i < |items| ==> names[i] == items[i].text;
      forall x
        ensures x in Texts(items) <==> x in names
      {
        if x in Texts(items) {
          var i :| 0 <= i < |items| && items[i].text == x;
          assert names[i] == x;
        }
      }
    }
  }

  /** Two values that decode alike bind alike, to any type. */
  lemma {:induction false} DecodedBinds(schema: Schema, v: Json, w: Json, fold: Name -> Name)
    requires Decoded(v) == Decoded(w) && !Collides(v, fold) && !Collides(w, fold)
    ensures Bind(schema, v, fold) == Bind(schema, w, fold)
    decreases v, 1
  {
    if v.Arr? {
      ItemsBind(schema, v.items, w.items, fold);
    } else if v.Obj? {
      MembersBind(schema, v, w, fold);
    }
  }

  lemma {:induction false} MembersBind(schema: Schema, v: Json, w: Json, fold: Name -> Name)
    requires v.Obj? && w.Obj? && DecodedMembers(v.members) == DecodedMembers(w.members)
    requires !Collides(v, fold) && !Collides(w, fold) && Decoded(v) == Decoded(w)
    ensures Bind(schema, v, fold) == Bind(schema, w, fold)
    decreases v, 0
  {
    hide Collides, DecodedMembers, Decoded, LastFor;
    if schema.Struct? {
      var fields := schema.fields;
      forall f | f in fields
        ensures LastFor(v.members, f, fold).Some? <==> LastFor(w.members, f, fold).Some?
        ensures LastFor(v.members, f, fold).Some? ==>
          Bind(fields[f], LastFor(v.members, f, fold).value, fold) == Bind(fields[f], LastFor(w.members, f, fold).value, fold)
      {
        FieldBinds(fields[f], f, v.members, w.members, fold);
      }
    }
  }

  lemma {:induction false} ItemsBind(schema: Schema, items: seq<Json>, others: seq<Json>, fold: Name -> Name)
    requires DecodedItems(items) == DecodedItems(others)
    requires !Collides(Arr(items), fold) && !Collides(Arr(others), fold)
    ensures Bind(schema, Arr(items), fold) == Bind(schema, Arr(others), fold)
    decreases items
  {
    DecodedItemAt(items);
    DecodedItemAt(others);
    NamesAreTexts(items);
    NamesAreTexts(others);
    assert Decoded(Arr(items)) == Decoded(Arr(others));
    hide Decoded, Collides, Texts;
    match schema
    case ListOf(item) =>
      forall i | 0 <= i < |items|
        ensures Bind(item, items[i], fold) == Bind(item, others[i], fold)
      {
        NoItemCollides(items, i, fold);
        NoItemCollides(others, i, fold);
        DecodedBinds(item, items[i], others[i], fold);
      }
      assert Bind(schema, Arr(items), fold) == Bind(schema, Arr(others), fold);
    case _ =>
  }

  lemma NoItemCollides(items: seq<Json>, i: nat, fold: Name -> Name)
    requires i < |items| && !Collides(Arr(items), fold)
    ensures !Collides(items[i], fold)
  {
  }

  lemma NoMemberCollides(ms: seq<Member>, fold: Name -> Name)
    requires !Collides(Obj(ms), fold)
    ensures !Repeats(ms, fold) && forall i :: 0 <= i < |ms| ==> !Collides(ms[i].value, fold)
  {
  }

  lemma FieldFound(f: Name, ms: seq<Member>, others: seq<Member>, fold: Name -> Name)
    requires !Repeats(ms, fold) && !Repeats(others, fold) && DecodedMembers(ms).Keys == DecodedMembers(others).Keys
    requires LastFor(others, f, fold).Some?
    ensures LastFor(ms, f, fold).Some?
  {
    DecodedAt(ms, fold);
    DecodedAt(others, fold);
    hide Decoded, Repeats, DecodedMembers;
    var j :| 0 <= j < |others| && Matches(others[j].key, f, fold);
    assert others[j].key in DecodedMembers(others).Keys;
    var i :| 0 <= i < |ms| && ms[i].key == others[j].key;
    LastForFinds(ms, f, fold, i);
  }

  lemma SharedMember(ms: seq<Member>, others: seq<Member>, fold: Name -> Name, i: nat) returns (j: nat)
    requires !Repeats(ms, fold) && !Repeats(others, fold) && DecodedMembers(ms).Keys == DecodedMembers(others).Keys
    requires i < |ms|
    ensures j < |others| && others[j].key == ms[i].key
    ensures ms[i].key in DecodedMembers(ms) && DecodedMembers(ms)[ms[i].key] == Decoded(ms[i].value)
    ensures ms[i].key in DecodedMembers(others) && DecodedMembers(others)[ms[i].key] == Decoded(others[j].value)
  {
    DecodedAt(ms, fold);
    DecodedAt(others, fold);
    hide Decoded, Repeats, DecodedMembers;
    assert ms[i].key in DecodedMembers(ms).Keys;
    j :| j < |others| && others[j].key == ms[i].key;
  }

  /** A member both objects have, decoded alike, binds a field alike. */
  lemma {:induction false} FieldBinds(schema: Schema, f: Name, ms: seq<Member>, others: seq<Member>, fold: Name -> Name)
    requires !Collides(Obj(ms), fold) && !Collides(Obj(others), fold)
    requires DecodedMembers(ms).Keys == DecodedMembers(others).Keys
    requires forall k :: k in DecodedMembers(ms) && Matches(k, f, fold) ==> DecodedMembers(ms)[k] == DecodedMembers(others)[k]
    ensures LastFor(ms, f, fold).Some? <==> LastFor(others, f, fold).Some?
    ensures LastFor(ms, f, fold).Some? ==>
      Bind(schema, LastFor(ms, f, fold).value, fold) == Bind(schema, LastFor(others, f, fold).value, fold)
    decreases ms
  {
    NoMemberCollides(ms, fold);
    NoMemberCollides(others, fold);
    hide Decoded, Collides, Repeats, Bind, DecodedMembers;
    if LastFor(others, f, fold).Some? {
      FieldFound(f, ms, others, fold);
    }
    if LastFor(ms, f, fold).Some? {
      var i :| 0 <= i < |ms| && Matches(ms[i].key, f, fold);
      FieldFound(f, others, ms, fold);
      var j := SharedMember(ms, others, fold, i);
      LastForIs(ms, f, fold, i);
      LastForIs(others, f, fold, j);
      DecodedBinds(schema, ms[i].value, others[j].value, fold);
    }
  }

  /** The request type reads the services as a set. */
  predicate ServicesAreSet(fields: map<Name, Schema>, fold: Name -> Name) {
    forall f :: f in fields && Matches(SERVICES, f, fold) ==> fields[f].NameSet?
  }

  lemma NormalizedKeys(c: Canon)
    requires c.CObj?
    ensures Normalized(c).CObj? && Normalized(c).members.Keys == c.members.Keys
    ensures forall k :: k in c.members && k != SERVICES ==> Normalized(c).members[k] == c.members[k]
  {
  }

  predicate IsNames(c: Canon) {
    c.CArr? && AllNames(c.items)
  }

  lemma NormalizedIsNames(c: Canon)
    requires c.CObj? && SERVICES in c.members
    ensures Normalized(c).CObj? && SERVICES in Normalized(c).members
    ensures var x, n := c.members[SERVICES], Normalized(c).members[SERVICES];
      && (IsNames(n) <==> IsNames(x))
      && (IsNames(x) ==> n == CArr(Strings(SortedSet(NamesOf(x.items)))))
      && (!IsNames(x) ==> n == x)
  {
  }

  lemma StringsAreDistinct(a: seq<Name>, b: seq<Name>)
    requires Strings(a) == Strings(b)
    ensures a == b
  {
    assert forall i :: 0 <= i < |a| ==> CStr(a[i]) == Strings(a)[i];
  }

  predicate SameServices(x: Canon, y: Canon) {
    x == y || (IsNames(x) && IsNames(y) && Elements(NamesOf(x.items)) == Elements(NamesOf(y.items)))
  }

  /** Normalised service lists are equal only for equal values, or for lists of the same names. */
  lemma NormalizedServices(c: Canon, d: Canon)
    requires c.CObj? && d.CObj? && Normalized(c) == Normalized(d) && SERVICES in c.members && SERVICES in d.members
    ensures SameServices(c.members[SERVICES], d.members[SERVICES])
  {
    hide Normalized, Strings, SortedSet;
    NormalizedIsNames(c);
    NormalizedIsNames(d);
    var x, y := c.members[SERVICES], d.members[SERVICES];
    if IsNames(x) && IsNames(y) {
      StringsAreDistinct(SortedSet(NamesOf(x.items)), SortedSet(NamesOf(y.items)));
      SortedSetExactly(NamesOf(x.items), NamesOf(y.items));
    }
  }

  lemma ServicesBind(v: Json, w: Json, fold: Name -> Name)
    requires !Collides(v, fold) && !Collides(w, fold)
    requires SameServices(Decoded(v), Decoded(w))
    ensures Bind(NameSet, v, fold) == Bind(NameSet, w, fold)
  {
    if Decoded(v) == Decoded(w) {
      DecodedBinds(NameSet, v, w, fold);
    } else {
      NamesAreTexts(v.items);
      NamesAreTexts(w.items);
    }
  }

  /** Two objects with one canonical form bind to one request. */
  lemma CanonicalBinds(fields: map<Name, Schema>, v: Json, w: Json, fold: Name -> Name)
    requires !Collides(v, fold) && !Collides(w, fold) && ServicesAreSet(fields, fold)
    requires Normalized(Decoded(v)) == Normalized(Decoded(w))
    ensures Bind(Struct(fields), v, fold) == Bind(Struct(fields), w, fold)
  {
    if v.Obj? && w.Obj? {
      forall f | f in fields
        ensures LastFor(v.members, f, fold).Some? <==> LastFor(w.members, f, fold).Some?
        ensures LastFor(v.members, f, fold).Some? ==>
          Bind(fields[f], LastFor(v.members, f, fold).value, fold) == Bind(fields[f], LastFor(w.members, f, fold).value, fold)
      {
        hide Bind, Collides, Normalized;
        CanonicalField(fields[f], f, v.members, w.members, fold);
      }
    } else {
      DecodedShape(v);
      DecodedShape(w);
    }
  }

  lemma DecodedShape(v: Json)
    ensures Decoded(v).CObj? <==> v.Obj?
    ensures Normalized(Decoded(v)).CObj? <==> v.Obj?
    ensures Decoded(v).CNull? <==> v.Null?
    ensures !v.Obj? ==> Normalized(Decoded(v)) == Decoded(v)
  {
  }

  lemma CanonicalField(schema: Schema, f: Name, ms: seq<Member>, others: seq<Member>, fold: Name -> Name)
    requires !Collides(Obj(ms), fold) && !Collides(Obj(others), fold)
    requires Normalized(Decoded(Obj(ms))) == Normalized(Decoded(Obj(others)))
    requires Matches(SERVICES, f, fold) ==> schema.NameSet?
    ensures LastFor(ms, f, fold).Some? <==> LastFor(others, f, fold).Some?
    ensures LastFor(ms, f, fold).Some? ==>
      Bind(schema, LastFor(ms, f, fold).value, fold) == Bind(schema, LastFor(others, f, fold).value, fold)
  {
    var c, d := Decoded(Obj(ms)), Decoded(Obj(others));
    NormalizedKeys(c);
    NormalizedKeys(d);
    assert DecodedMembers(ms).Keys == DecodedMembers(others).Keys;
    if SERVICES in c.members && Matches(SERVICES, f, fold) {
      NormalizedServices(c, d);
      NoMemberCollides(ms, fold);
      NoMemberCollides(others, fold);
      DecodedAt(ms, fold);
      DecodedAt(others, fold);
      hide Decoded, DecodedMembers, Normalized, Bind, Collides, Repeats, SameServices;
      var i :| 0 <= i < |ms| && ms[i].key == SERVICES;
      var j :| 0 <= j < |others| && others[j].key == SERVICES;
      LastForIs(ms, f, fold, i);
      LastForIs(others, f, fold, j);
      ServicesBind(ms[i].value, others[j].value, fold);
    } else {
      forall k | k in DecodedMembers(ms) && Matches(k, f, fold)
        ensures DecodedMembers(ms)[k] == DecodedMembers(others)[k]
      {
        assert k != SERVICES;
        assert Normalized(c).members[k] == Normalized(d).members[k];
      }
      hide Decoded, DecodedMembers, Normalized, Bind, Collides;
      FieldBinds(schema, f, ms, others, fold);
    }
  }

  // ---- what the handlers read ------------------------------------------------------------------

  /** How many bytes of JSON's white space a text starts with. */
  function JsonSpaces(s: string): (n: nat)
    ensures n <= |s|
  {
    if s != "" && s[0] as int in {9, 10, 13, 32} then 1 + JsonSpaces(s[1..]) else 0
  }

  function Binding(fields: map<Name, Schema>, value: Option<Json>, fold: Name -> Name): Bound {
    match value
    case Some(v) => Bind(Struct(fields), v, fold)
    case None => Mismatch
  }

  /** What a body means to a handler, which reads the bytes as sent: nothing when it is malformed. */
  function Meaning(fields: map<Name, Schema>, raw: string, d: Decoder, fold: Name -> Name): Bound {
    Binding(fields, d.first(raw[JsonSpaces(raw)..]), fold)
  }

  /** What it would mean without the white space around it. */
  function TrimmedMeaning(fields: map<Name, Schema>, raw: string, d: Decoder, fold: Name -> Name): Bound {
    Binding(fields, d.first(Trim(raw)), fold)
  }

  /** What a handler that ignores binding errors acts on (handlers.go:82). */
  function Optional(b: Bound): Bound {
    if b.Mismatch? then Unset else b
  }

  /** All the white space a body starts with is JSON's. */
  predicate JsonFront(raw: string) {
    JsonSpaces(raw) == Spaces(raw)
  }

  lemma {:induction false} FrontSpaces(s: string)
    ensures JsonSpaces(s) <= Spaces(s)
    ensures JsonSpaces(s) < Spaces(s) ==> s[JsonSpaces(s)..] != "" && IsSpace(DecodeRune(s[JsonSpaces(s)..]).code)
  {
    if s != "" && s[0] as int in {9, 10, 13, 32} {
      assert DecodeRune(s) == Rune(s[0] as int, 1);
      FrontSpaces(s[1..]);
      assert s[1..][JsonSpaces(s[1..])..] == s[JsonSpaces(s)..];
    } else {
      assert s[0..] == s;
    }
  }

  /** A handler reads what is hashed, unless the body starts with white space that is not JSON's: then it reads nothing. */
  lemma MeaningIs(fields: map<Name, Schema>, raw: string, d: Decoder, fold: Name -> Name)
    requires ReadsJson(d)
    ensures Meaning(fields, raw, d, fold) == if JsonFront(raw) then TrimmedMeaning(fields, raw, d, fold) else Mismatch
  {
    hide Bind, TrimRight, Spaces, JsonSpaces, DecodeRune, IsSpace;
    FrontSpaces(raw);
    if JsonFront(raw) {
      assert d.first(TrimRight(raw[Spaces(raw)..])) == d.first(raw[Spaces(raw)..]);
    }
  }

  /** Bodies with one fingerprint mean the same once the white space around them is gone. */
  lemma TrimmedMeaningKept(fields: map<Name, Schema>, a: string, b: string, d: Decoder, fold: Name -> Name)
    requires ServicesAreSet(fields, fold) && Fingerprinted(a, d, fold) == Fingerprinted(b, d, fold)
    ensures TrimmedMeaning(fields, a, d, fold) == TrimmedMeaning(fields, b, d, fold)
  {
    hide Bind, Normalized, Decoded, Trim;
    if Fingerprinted(a, d, fold).Canonical? {
      CanonicalBinds(fields, d.first(Trim(a)).value, d.first(Trim(b)).value, fold);
    }
  }

  /**
    What the fingerprint preserves: two bodies hashed from the same form bind to the
    same request, with the services read as a set, exactly when both or neither start
    with white space of JSON's alone, or what they hold binds to nothing anyway.
   */
  lemma FingerprintPreservesMeaning(fields: map<Name, Schema>, a: string, b: string, d: Decoder, fold: Name -> Name)
    requires ServicesAreSet(fields, fold) && ReadsJson(d) && Fingerprinted(a, d, fold) == Fingerprinted(b, d, fold)
    ensures Meaning(fields, a, d, fold) == Meaning(fields, b, d, fold) <==>
      (JsonFront(a) <==> JsonFront(b)) || TrimmedMeaning(fields, a, d, fold).Mismatch?
  {
    hide *;
    TrimmedMeaningKept(fields, a, b, d, fold);
    MeaningIs(fields, a, d, fold);
    MeaningIs(fields, b, d, fold);
  }

  const FORCE: Name := ['f' as int, 'o' as int, 'r' as int, 'c' as int, 'e' as int]

  const FORCED := "{\"force\":true}"

  const FORM_FEED: string := ['\U{0C}']

  /**
    A form feed before a body: the fingerprint is that of the body without it, and the
    handler reads nothing. A route that ignores the error acts without force, and
    answers a later request that asks for force with what it did.
   */
  lemma FormFeedIsLost(d: Decoder, fold: Name -> Name)
    requires ReadsJson(d) && d.first(FORCED) == Some(Obj([Member(FORCE, Bool(true))])) && !d.more(FORCED)
    ensures var fields, bad := map[FORCE := Anything], FORM_FEED + FORCED;
      && Fingerprinted(bad, d, fold) == Fingerprinted(FORCED, d, fold)
      && Optional(Meaning(fields, bad, d, fold)) == Unset
      && Optional(Meaning(fields, FORCED, d, fold)) == StructBound(map[FORCE := Value(CBool(true))])
  {
    hide *;
    var fields, bad := map[FORCE := Anything], FORM_FEED + FORCED;
    ForcedSpaces();
    MeaningIs(fields, bad, d, fold);
    MeaningIs(fields, FORCED, d, fold);
    SameTrim(bad, FORCED, d, fold);
    ForcedMeans(fields, d, fold);
    OptionalIs();
  }

  lemma OptionalIs()
    ensures Optional(Mismatch) == Unset
    ensures forall fields :: Optional(StructBound(fields)) == StructBound(fields)
  {
  }

  lemma ForcedSpaces()
    ensures Trim(FORCED) == FORCED && Trim(FORM_FEED + FORCED) == FORCED
    ensures JsonFront(FORCED) && !JsonFront(FORM_FEED + FORCED)
  {
    assert FORCED[0] == '{' && FORCED[|FORCED| - 1] == '}';
    LastSpaceVisible(FORCED);
    var bad := FORM_FEED + FORCED;
    assert bad[0] == '\U{0C}' && bad[1..] == FORCED;
    hide FORCED, LastSpace;
    assert Spaces(FORCED) == 0 && FORCED[0..] == FORCED;
    assert DecodeRune(bad) == Rune(12, 1) && Spaces(bad) == 1;
  }

  lemma SameTrim(a: string, b: string, d: Decoder, fold: Name -> Name)
    requires Trim(a) == Trim(b)
    ensures Fingerprinted(a, d, fold) == Fingerprinted(b, d, fold)
  {
    hide Trim;
  }

  lemma ForcedMeans(fields: map<Name, Schema>, d: Decoder, fold: Name -> Name)
    requires fields == map[FORCE := Anything] && Trim(FORCED) == FORCED
    requires d.first(FORCED) == Some(Obj([Member(FORCE, Bool(true))]))
    ensures TrimmedMeaning(fields, FORCED, d, fold) == StructBound(map[FORCE := Value(CBool(true))])
  {
    hide Trim, FORCED;
    var ms := [Member(FORCE, Bool(true))];
    assert LastFor(ms, FORCE, fold) == Some(Bool(true));
    assert Bind(Anything, Bool(true), fold) == Value(CBool(true));
  }

  // ---- and ignores what does not matter --------------------------------------------------------

  /** The bytes hashed: `marshal` writes a canonical form. */
  function HashedBytes(raw: string, d: Decoder, marshal: Canon -> string, fold: Name -> Name): string {
    match Fingerprinted(raw, d, fold)
    case Canonical(c) => marshal(c)
    case Bytes(r) => r
  }

  /** What json.Marshal writes of a canonical form is read back as a value with that form and no collision. */
  ghost predicate ReadsBack(d: Decoder, marshal: Canon -> string, fold: Name -> Name) {
    forall raw :: Fingerprinted(raw, d, fold).Canonical? ==>
      Fingerprinted(marshal(Fingerprinted(raw, d, fold).value), d, fold) == Fingerprinted(raw, d, fold)
  }

  /** Hashing the bytes of either form loses nothing: equal bytes come from equal forms. */
  lemma HashedBytesExactly(a: string, b: string, d: Decoder, marshal: Canon -> string, fold: Name -> Name)
    requires ReadsBack(d, marshal, fold)
    ensures HashedBytes(a, d, marshal, fold) == HashedBytes(b, d, marshal, fold)
      <==> Fingerprinted(a, d, fold) == Fingerprinted(b, d, fold)
  {
    BytesAreTrimmed(a, d, fold);
    BytesAreTrimmed(b, d, fold);
    hide Fingerprinted;
  }

  /** Hashed as bytes, a body is hashed as its trimmed bytes, and so are they. */
  lemma BytesAreTrimmed(raw: string, d: Decoder, fold: Name -> Name)
    ensures Fingerprinted(raw, d, fold).Bytes? ==> Fingerprinted(raw, d, fold).raw == Trim(raw)
    ensures Fingerprinted(Trim(raw), d, fold) == Fingerprinted(raw, d, fold)
  {
    hide Trim;
    TrimTwice(raw);
  }

  /** Permuting the members of an object without repeated keys changes nothing of what is decoded. */
  lemma MemberOrderIsIgnored(ms: seq<Member>, others: seq<Member>, fold: Name -> Name)
    requires multiset(ms) == multiset(others) && !Repeats(ms, fold) && !Repeats(others, fold)
    ensures Decoded(Obj(ms)) == Decoded(Obj(others))
  {
    SameMembers(ms, others, fold);
    SameMembers(others, ms, fold);
    hide Decoded, DecodedMembers;
    assert DecodedMembers(ms).Keys == DecodedMembers(others).Keys;
    assert DecodedMembers(ms) == DecodedMembers(others);
    ObjDecodes(ms);
    ObjDecodes(others);
  }

  lemma ObjDecodes(ms: seq<Member>)
    ensures Decoded(Obj(ms)) == CObj(DecodedMembers(ms))
  {
  }

  lemma SameMembers(ms: seq<Member>, others: seq<Member>, fold: Name -> Name)
    requires multiset(ms) == multiset(others) && !Repeats(ms, fold) && !Repeats(others, fold)
    ensures forall k :: k in DecodedMembers(ms) ==> k in DecodedMembers(others) && DecodedMembers(others)[k] == DecodedMembers(ms)[k]
  {
    DecodedAt(ms, fold);
    DecodedAt(others, fold);
    hide Repeats, Decoded, DecodedMembers;
    MembersAreShared(ms, others);
    forall k | k in DecodedMembers(ms)
      ensures k in DecodedMembers(others) && DecodedMembers(others)[k] == DecodedMembers(ms)[k]
    {
      var i :| 0 <= i < |ms| && ms[i].key == k;
      var j :| 0 <= j < |others| && others[j] == ms[i];
    }
  }

  lemma MembersAreShared(ms: seq<Member>, others: seq<Member>)
    requires multiset(ms) == multiset(others)
    ensures forall i :: 0 <= i < |ms| ==> ms[i] in others
    ensures forall i :: 0 <= i < |others| ==> others[i] in ms
  {
    assert forall m :: m in ms <==> m in multiset(ms);
    assert forall m :: m in others <==> m in multiset(others);
  }

  /**
    Why colliding keys are hashed as sent: two members whose keys fold to one decode
    alike in either order, and bind differently.
   */
  lemma CollidingOrderMatters(a: Name, b: Name, x: Json, y: Json, fold: Name -> Name)
    requires a != b && fold(a) == fold(b) && !x.Null? && !y.Null? && Decoded(x) != Decoded(y)
    ensures var v, w := Obj([Member(a, x), Member(b, y)]), Obj([Member(b, y), Member(a, x)]);
      && Decoded(v) == Decoded(w)
      && Collides(v, fold)
      && Bind(Struct(map[a := Anything]), v, fold) != Bind(Struct(map[a := Anything]), w, fold)
  {
    var ms, ws := [Member(a, x), Member(b, y)], [Member(b, y), Member(a, x)];
    TwoDecoded(Member(a, x), Member(b, y));
    TwoDecoded(Member(b, y), Member(a, x));
    assert fold(ms[0].key) == fold(ms[1].key);
    LastBinds(a, ms, y, fold);
    LastBinds(a, ws, x, fold);
    hide Bind, LastFor;
  }

  lemma LastBinds(f: Name, ms: seq<Member>, y: Json, fold: Name -> Name)
    requires LastFor(ms, f, fold) == Some(y) && !y.Null?
    ensures var b := Bind(Struct(map[f := Anything]), Obj(ms), fold);
      b.StructBound? && f in b.fields && b.fields[f] == Value(Decoded(y))
  {
    hide LastFor;
    var fields := map[f := Anything];
    assert f in fields && fields[f] == Anything;
    assert Bind(fields[f], y, fold) == Value(Decoded(y));
  }

  lemma TwoDecoded(m: Member, n: Member)
    requires m.key != n.key
    ensures DecodedMembers([m, n]) == map[m.key := Decoded(m.value), n.key := Decoded(n.value)]
  {
    assert [m, n][1..] == [n];
    assert [n][1..] == [];
    assert DecodedMembers([n]) == map[n.key := Decoded(n.value)];
  }
}
