/**
  Which bodies have one fingerprint, said of what the bodies hold and of nothing the
  fingerprint computes: two JSON values whose members may stand in another order at any
  depth, with the names of a top-level list of services in another order or repeated;
  or two texts that are hashed as bytes and are the same but for the white space around.
 */
module SameBodies {
  import opened Text
  import opened Json
  import opened Fingerprint

  predicate HasKey(ms: seq<Member>, key: Name) {
    exists j :: 0 <= j < |ms| && ms[j].key == key
  }

  /** One value up to the order of the members of its objects. */
  predicate Alike(v: Json, w: Json)
    decreases v
  {
    match v
    case Arr(items) => w.Arr? && |items| == |w.items| && forall i :: 0 <= i < |items| ==> Alike(items[i], w.items[i])
    case Obj(ms) =>
      && w.Obj?
      && (forall i :: 0 <= i < |ms| ==> AlikeIn(ms[i], w.members))
      && (forall j :: 0 <= j < |w.members| ==> HasKey(ms, w.members[j].key))
    case _ => v == w
  }

  predicate AlikeIn(m: Member, ws: seq<Member>)
    decreases m
  {
    exists j :: 0 <= j < |ws| && ws[j].key == m.key && Alike(m.value, ws[j].value)
  }

  /** Two lists of the same names. */
  predicate SameNames(v: Json, w: Json) {
    v.Arr? && w.Arr? && AllStr(v.items) && AllStr(w.items) && Texts(v.items) == Texts(w.items)
  }

  predicate SameIn(m: Member, ws: seq<Member>) {
    exists j :: 0 <= j < |ws| && ws[j].key == m.key
                && (Alike(m.value, ws[j].value) || (m.key == SERVICES && SameNames(m.value, ws[j].value)))
  }

  /** One request: one value up to the order of members, and of the services and their repetition. */
  predicate SameRequest(v: Json, w: Json) {
    if v.Obj? && w.Obj? then
      && (forall i :: 0 <= i < |v.members| ==> SameIn(v.members[i], w.members))
      && (forall j :: 0 <= j < |w.members| ==> HasKey(v.members, w.members[j].key))
    else Alike(v, w)
  }

  // ---- what is decoded --------------------------------------------------------------------

  /** Both maps have the key, at one value. */
  ghost predicate AgreeAt(p: map<Name, Canon>, q: map<Name, Canon>, key: Name) {
    key in p && key in q && p[key] == q[key]
  }

  ghost predicate KeyedBy(p: map<Name, Canon>, ms: seq<Member>) {
    forall k :: k in p <==> HasKey(ms, k)
  }

  lemma OwnKeys(p: map<Name, Canon>, ms: seq<Member>)
    requires KeyedBy(p, ms)
    ensures forall i :: 0 <= i < |ms| ==> HasKey(ms, ms[i].key) && ms[i].key in p
  {
    forall i | 0 <= i < |ms|
      ensures HasKey(ms, ms[i].key)
    {
    }
  }

  /** Two maps are one when the first agrees with the second at its keys and the second has no other. */
  lemma MapsAgree(p: map<Name, Canon>, q: map<Name, Canon>, ms: seq<Member>, ws: seq<Member>)
    requires KeyedBy(p, ms) && KeyedBy(q, ws)
    ensures p == q <==>
      (forall i :: 0 <= i < |ms| ==> AgreeAt(p, q, ms[i].key)) && (forall j :: 0 <= j < |ws| ==> HasKey(ms, ws[j].key))
  {
    OwnKeys(p, ms);
    OwnKeys(q, ws);
    if (forall i :: 0 <= i < |ms| ==> AgreeAt(p, q, ms[i].key)) && (forall j :: 0 <= j < |ws| ==> HasKey(ms, ws[j].key)) {
      forall k
        ensures k in p <==> k in q
        ensures k in p ==> p[k] == q[k]
      {
        SameEntry(p, q, ms, ws, k);
      }
    }
  }

  lemma SameEntry(p: map<Name, Canon>, q: map<Name, Canon>, ms: seq<Member>, ws: seq<Member>, k: Name)
    requires KeyedBy(p, ms) && KeyedBy(q, ws)
    requires forall i :: 0 <= i < |ms| ==> AgreeAt(p, q, ms[i].key)
    requires forall j :: 0 <= j < |ws| ==> HasKey(ms, ws[j].key)
    ensures k in p <==> k in q
    ensures k in p ==> p[k] == q[k]
  {
    assert k in p ==> HasKey(ms, k);
    assert k in q ==> HasKey(ws, k);
  }

  ghost predicate DecodesTo(ws: seq<Member>, key: Name, c: Canon) {
    key in DecodedMembers(ws) && DecodedMembers(ws)[key] == c
  }

  lemma KeysDecoded(ms: seq<Member>, fold: Name -> Name, key: Name)
    requires !Repeats(ms, fold)
    ensures HasKey(ms, key) <==> key in DecodedMembers(ms)
  {
    DecodedAt(ms, fold);
  }

  lemma MemberDecoded(ms: seq<Member>, fold: Name -> Name, j: nat)
    requires !Repeats(ms, fold) && j < |ms|
    ensures DecodesTo(ms, ms[j].key, Decoded(ms[j].value))
  {
    DecodedAt(ms, fold);
  }

  lemma {:induction false} AlikeInExactly(m: Member, ws: seq<Member>, fold: Name -> Name)
    requires !Collides(m.value, fold) && !Collides(Obj(ws), fold)
    ensures AlikeIn(m, ws) <==> DecodesTo(ws, m.key, Decoded(m.value))
    decreases m
  {
    NoMemberCollides(ws, fold);
    KeysDecoded(ws, fold, m.key);
    hide Collides, Decoded, DecodedMembers, Repeats, Alike;
    forall j | 0 <= j < |ws| && ws[j].key == m.key
      ensures Alike(m.value, ws[j].value) <==> DecodesTo(ws, m.key, Decoded(m.value))
    {
      DecodedExactly(m.value, ws[j].value, fold);
      MemberDecoded(ws, fold, j);
    }
    if DecodesTo(ws, m.key, Decoded(m.value)) {
      var j :| 0 <= j < |ws| && ws[j].key == m.key;
    }
  }

  /** Two objects decode alike exactly when each member is in the other. */
  lemma {:induction false} MembersExactly(ms: seq<Member>, ws: seq<Member>, fold: Name -> Name)
    requires !Collides(Obj(ms), fold) && !Collides(Obj(ws), fold)
    ensures DecodedMembers(ms) == DecodedMembers(ws) <==> Alike(Obj(ms), Obj(ws))
    decreases ms
  {
    NoMemberCollides(ms, fold);
    NoMemberCollides(ws, fold);
    hide Collides, Decoded, DecodedMembers, Repeats, Alike, AlikeIn, HasKey;
    forall i | 0 <= i < |ms|
      ensures AlikeIn(ms[i], ws) <==> AgreeAt(DecodedMembers(ms), DecodedMembers(ws), ms[i].key)
    {
      MemberDecoded(ms, fold, i);
      AlikeInExactly(ms[i], ws, fold);
    }
    EachKey(ms, fold);
    EachKey(ws, fold);
    MapsAgree(DecodedMembers(ms), DecodedMembers(ws), ms, ws);
    AlikeObjects(ms, ws);
  }

  lemma EachKey(ms: seq<Member>, fold: Name -> Name)
    requires !Repeats(ms, fold)
    ensures KeyedBy(DecodedMembers(ms), ms)
  {
    hide DecodedMembers, Repeats, HasKey;
    forall k
      ensures k in DecodedMembers(ms) <==> HasKey(ms, k)
    {
      KeysDecoded(ms, fold, k);
    }
  }

  lemma AlikeObjects(ms: seq<Member>, ws: seq<Member>)
    ensures Alike(Obj(ms), Obj(ws)) <==>
      && (forall i :: 0 <= i < |ms| ==> AlikeIn(ms[i], ws))
      && (forall j :: 0 <= j < |ws| ==> HasKey(ms, ws[j].key))
  {
    hide HasKey, AlikeIn;
  }

  /** Without collisions, two values decode to one exactly when they differ in the order of members alone. */
  lemma {:induction false} DecodedExactly(v: Json, w: Json, fold: Name -> Name)
    requires !Collides(v, fold) && !Collides(w, fold)
    ensures Decoded(v) == Decoded(w) <==> Alike(v, w)
    decreases v
  {
    if v.Arr? && w.Arr? {
      ItemsExactly(v.items, w.items, fold);
    } else if v.Obj? && w.Obj? {
      MembersExactly(v.members, w.members, fold);
    }
  }

  lemma {:induction false} ItemsExactly(items: seq<Json>, others: seq<Json>, fold: Name -> Name)
    requires !Collides(Arr(items), fold) && !Collides(Arr(others), fold)
    ensures DecodedItems(items) == DecodedItems(others) <==> Alike(Arr(items), Arr(others))
    decreases items
  {
    DecodedItemAt(items);
    DecodedItemAt(others);
    if |items| == |others| {
      forall i | 0 <= i < |items|
        ensures Decoded(items[i]) == Decoded(others[i]) <==> Alike(items[i], others[i])
      {
        NoItemCollides(items, i, fold);
        NoItemCollides(others, i, fold);
        DecodedExactly(items[i], others[i], fold);
      }
      hide Decoded, DecodedItems, Collides;
      if forall i :: 0 <= i < |items| ==> Decoded(items[i]) == Decoded(others[i]) {
        assert DecodedItems(items) == DecodedItems(others);
      }
    }
  }

  // ---- what is hashed ------------------------------------------------------------------------

  /** A member's value in the canonical form. */
  ghost function NormalAt(key: Name, x: Canon): Canon {
    if key == SERVICES && IsNames(x) then CArr(Strings(SortedSet(NamesOf(x.items)))) else x
  }

  lemma NormalExactly(key: Name, x: Canon, y: Canon)
    ensures NormalAt(key, x) == NormalAt(key, y) <==> x == y || (key == SERVICES && SameServices(x, y))
  {
    if key == SERVICES && IsNames(x) && IsNames(y) {
      hide SortedSet, Strings;
      SortedSetExactly(NamesOf(x.items), NamesOf(y.items));
      if NormalAt(key, x) == NormalAt(key, y) {
        StringsAreDistinct(SortedSet(NamesOf(x.items)), SortedSet(NamesOf(y.items)));
      }
    } else if key == SERVICES && IsNames(x) {
      assert IsNames(NormalAt(key, x));
    } else if key == SERVICES && IsNames(y) {
      assert IsNames(NormalAt(key, y));
    }
  }

  lemma NormalizedAt(c: Canon)
    requires c.CObj?
    ensures Normalized(c).CObj? && Normalized(c).members.Keys == c.members.Keys
    ensures forall k :: k in c.members ==> Normalized(c).members[k] == NormalAt(k, c.members[k])
  {
    hide SortedSet, Strings;
  }

  ghost predicate NormalizesTo(ws: seq<Member>, key: Name, c: Canon) {
    key in DecodedMembers(ws) && NormalAt(key, DecodedMembers(ws)[key]) == c
  }

  lemma NamesExactly(v: Json, w: Json)
    ensures SameServices(Decoded(v), Decoded(w)) <==> Decoded(v) == Decoded(w) || SameNames(v, w)
  {
    if v.Arr? && w.Arr? {
      NamesAreTexts(v.items);
      NamesAreTexts(w.items);
    }
  }

  lemma SameInExactly(m: Member, ws: seq<Member>, fold: Name -> Name)
    requires !Collides(m.value, fold) && !Collides(Obj(ws), fold)
    ensures SameIn(m, ws) <==> NormalizesTo(ws, m.key, NormalAt(m.key, Decoded(m.value)))
  {
    NoMemberCollides(ws, fold);
    KeysDecoded(ws, fold, m.key);
    hide Collides, Decoded, DecodedMembers, Repeats, Alike, SameNames, NormalAt, SameServices;
    forall j | 0 <= j < |ws| && ws[j].key == m.key
      ensures Alike(m.value, ws[j].value) || (m.key == SERVICES && SameNames(m.value, ws[j].value))
         <==> NormalizesTo(ws, m.key, NormalAt(m.key, Decoded(m.value)))
    {
      DecodedExactly(m.value, ws[j].value, fold);
      NamesExactly(m.value, ws[j].value);
      MemberDecoded(ws, fold, j);
      NormalExactly(m.key, Decoded(m.value), Decoded(ws[j].value));
    }
    if NormalizesTo(ws, m.key, NormalAt(m.key, Decoded(m.value))) {
      var j :| 0 <= j < |ws| && ws[j].key == m.key;
    }
  }

  lemma NormalKeys(ms: seq<Member>, p: map<Name, Canon>)
    requires KeyedBy(DecodedMembers(ms), ms) && Normalized(CObj(DecodedMembers(ms))) == CObj(p)
    ensures KeyedBy(p, ms)
    ensures forall k :: k in p ==> k in DecodedMembers(ms) && p[k] == NormalAt(k, DecodedMembers(ms)[k])
  {
    NormalizedAt(CObj(DecodedMembers(ms)));
    hide DecodedMembers, Normalized, NormalAt, HasKey;
    forall k
      ensures k in p <==> HasKey(ms, k)
    {
      assert k in p <==> k in p.Keys;
    }
  }

  lemma ObjectDecodes(ms: seq<Member>)
    ensures Decoded(Obj(ms)) == CObj(DecodedMembers(ms)) && Normalized(Decoded(Obj(ms))).CObj?
  {
    NormalizedAt(CObj(DecodedMembers(ms)));
    hide Normalized, DecodedMembers;
  }

  /** Without collisions, two values have one canonical form exactly when they are one request. */
  lemma CanonicalExactly(v: Json, w: Json, fold: Name -> Name)
    requires !Collides(v, fold) && !Collides(w, fold)
    ensures Normalized(Decoded(v)) == Normalized(Decoded(w)) <==> SameRequest(v, w)
  {
    DecodedShape(v);
    DecodedShape(w);
    if v.Obj? && w.Obj? {
      ObjectsExactly(v.members, w.members, fold);
    } else {
      DecodedExactly(v, w, fold);
    }
    hide Normalized, Decoded, Alike, Collides;
  }

  lemma ObjectsExactly(ms: seq<Member>, ws: seq<Member>, fold: Name -> Name)
    requires !Collides(Obj(ms), fold) && !Collides(Obj(ws), fold)
    ensures Normalized(Decoded(Obj(ms))) == Normalized(Decoded(Obj(ws))) <==> SameRequest(Obj(ms), Obj(ws))
  {
    NoMemberCollides(ms, fold);
    NoMemberCollides(ws, fold);
    hide Collides, Decoded, DecodedMembers, Repeats, SameIn, HasKey, NormalAt, Normalized, Alike, KeyedBy;
    ObjectDecodes(ms);
    ObjectDecodes(ws);
    EachKey(ms, fold);
    EachKey(ws, fold);
    var p, q := Normalized(Decoded(Obj(ms))).members, Normalized(Decoded(Obj(ws))).members;
    NormalKeys(ms, p);
    NormalKeys(ws, q);
    OwnKeys(p, ms);
    forall i | 0 <= i < |ms|
      ensures SameIn(ms[i], ws) <==> AgreeAt(p, q, ms[i].key)
    {
      MemberDecoded(ms, fold, i);
      SameInExactly(ms[i], ws, fold);
      SameKeys(q, ws, ms[i].key);
    }
    MapsAgree(p, q, ms, ws);
  }

  lemma SameKeys(q: map<Name, Canon>, ws: seq<Member>, key: Name)
    requires KeyedBy(q, ws) && KeyedBy(DecodedMembers(ws), ws)
    ensures key in q <==> key in DecodedMembers(ws)
  {
    hide DecodedMembers, HasKey;
  }

  // ---- the fingerprint -------------------------------------------------------------------------

  /** A text that is one JSON value and nothing more, with no two keys that fold to one. */
  ghost predicate IsValue(x: string, v: Json, d: Decoder, fold: Name -> Name) {
    d.first(x) == Some(v) && !d.more(x) && !Collides(v, fold)
  }

  ghost predicate IsSomeValue(x: string, d: Decoder, fold: Name -> Name) {
    exists v :: IsValue(x, v, d, fold)
  }

  /**
    Which bodies have one fingerprint. Both hold one value without colliding keys, and the
    values are one request; or neither does, and they are the same bytes but for the white
    space around them.
   */
  lemma FingerprintExactly(a: string, b: string, d: Decoder, fold: Name -> Name)
    ensures Fingerprinted(a, d, fold) == Fingerprinted(b, d, fold) <==>
      || (exists v, w :: IsValue(Trim(a), v, d, fold) && IsValue(Trim(b), w, d, fold) && SameRequest(v, w))
      || (!IsSomeValue(Trim(a), d, fold) && !IsSomeValue(Trim(b), d, fold) && Trim(a) == Trim(b))
  {
    hide *;
    HashedIs(a, d, fold);
    HashedIs(b, d, fold);
    if IsSomeValue(Trim(a), d, fold) {
      var v := TheValue(Trim(a), d, fold);
    }
    if IsSomeValue(Trim(b), d, fold) {
      var w := TheValue(Trim(b), d, fold);
    }
    if IsSomeValue(Trim(a), d, fold) && IsSomeValue(Trim(b), d, fold) {
      var v := TheValue(Trim(a), d, fold);
      var w := TheValue(Trim(b), d, fold);
      ValueParts(Trim(a), v, d, fold);
      ValueParts(Trim(b), w, d, fold);
      CanonicalExactly(v, w, fold);
    }
    OnlyValue(Trim(a), d, fold);
    OnlyValue(Trim(b), d, fold);
  }

  lemma TheValue(x: string, d: Decoder, fold: Name -> Name) returns (v: Json)
    requires IsSomeValue(x, d, fold)
    ensures IsValue(x, v, d, fold)
  {
    hide IsValue;
    v :| IsValue(x, v, d, fold);
  }

  lemma ValueParts(x: string, v: Json, d: Decoder, fold: Name -> Name)
    requires IsValue(x, v, d, fold)
    ensures !Collides(v, fold) && d.first(x) == Some(v)
  {
  }

  lemma OnlyValue(x: string, d: Decoder, fold: Name -> Name)
    ensures forall v: Json, w: Json :: IsValue(x, v, d, fold) && IsValue(x, w, d, fold) ==> v == w
    ensures forall v: Json :: IsValue(x, v, d, fold) ==> IsSomeValue(x, d, fold)
  {
    hide Collides;
  }

  lemma HashedIs(raw: string, d: Decoder, fold: Name -> Name)
    ensures forall v: Json :: IsValue(Trim(raw), v, d, fold) ==> Fingerprinted(raw, d, fold) == Canonical(Normalized(Decoded(v)))
    ensures !IsSomeValue(Trim(raw), d, fold) ==> Fingerprinted(raw, d, fold) == Bytes(Trim(raw))
  {
    hide Collides, Normalized, Decoded, Trim;
    var x := Trim(raw);
    if d.first(x).Some? && !d.more(x) && !Collides(d.first(x).value, fold) {
      assert IsValue(x, d.first(x).value, d, fold);
    }
  }

  /** In particular: one object whose members are sent in another order, with other white space anywhere. */
  lemma ReorderedIsOneRequest(a: string, b: string, ms: seq<Member>, others: seq<Member>, d: Decoder, fold: Name -> Name)
    requires IsValue(Trim(a), Obj(ms), d, fold) && IsValue(Trim(b), Obj(others), d, fold) && multiset(ms) == multiset(others)
    ensures Fingerprinted(a, d, fold) == Fingerprinted(b, d, fold)
  {
    hide *;
    ValueParts(Trim(a), Obj(ms), d, fold);
    ValueParts(Trim(b), Obj(others), d, fold);
    NoMemberCollides(ms, fold);
    NoMemberCollides(others, fold);
    MemberOrderIsIgnored(ms, others, fold);
    HashedIs(a, d, fold);
    HashedIs(b, d, fold);
  }
}
