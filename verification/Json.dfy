/**
  JSON bodies as the idempotency fingerprint reads them (idempotency.go; JSON texts,
  section 2 of RFC 8259): values, their tokens, and the stack machine that looks for
  an object with two keys that fold to one. Strings are sequences of runes.
 */
module Json {
  type Name = seq<int>

  datatype Member = Member(key: Name, value: Json)

  datatype Json =
    | Null
    | Bool(b: bool)
    | Number(text: Name)
    | Str(text: Name)
    | Arr(items: seq<Json>)
    | Obj(members: seq<Member>)

  datatype Token = BeginObj | EndObj | BeginArr | EndArr | Text(text: Name) | Scalar

  function Tokens(v: Json): seq<Token> {
    match v
    case Str(s) => [Text(s)]
    case Arr(items) => [BeginArr] + ItemTokens(items) + [EndArr]
    case Obj(ms) => [BeginObj] + MemberTokens(ms) + [EndObj]
    case _ => [Scalar]
  }

  function ItemTokens(items: seq<Json>): seq<Token> {
    if items == [] then [] else Tokens(items[0]) + ItemTokens(items[1..])
  }

  function MemberTokens(ms: seq<Member>): seq<Token> {
    if ms == [] then [] else [Text(ms[0].key)] + Tokens(ms[0].value) + MemberTokens(ms[1..])
  }

  // ---- an object repeats a key ------------------------------------------------------

  predicate Repeats(ms: seq<Member>, fold: Name -> Name) {
    exists i, j :: 0 <= i < j < |ms| && fold(ms[i].key) == fold(ms[j].key)
  }

  /** Some object in a value, at any depth, has two keys that fold to one. */
  predicate Collides(v: Json, fold: Name -> Name) {
    match v
    case Arr(items) => exists i :: 0 <= i < |items| && Collides(items[i], fold)
    case Obj(ms) => Repeats(ms, fold) || exists i :: 0 <= i < |ms| && Collides(ms[i].value, fold)
    case _ => false
  }

  // ---- the machine ---------------------------------------------------------------------

  datatype Frame = Frame(isObject: bool, expectKey: bool, keys: set<Name>)

  function Top(stack: seq<Frame>): Frame {
    if stack == [] then Frame(false, false, {}) else stack[|stack| - 1]
  }

  /** The decoder closes only what is open. */
  function Pop(stack: seq<Frame>): seq<Frame> {
    if stack == [] then [] else stack[..|stack| - 1]
  }

  /** A complete value ended: the enclosing object expects its next key. */
  function Ended(stack: seq<Frame>): seq<Frame> {
    if Top(stack).isObject then Pop(stack) + [Top(stack).(expectKey := true)] else stack
  }

  predicate ExpectsKey(stack: seq<Frame>) {
    Top(stack).isObject && Top(stack).expectKey
  }

  /** The key the next token is, folded, when it is one. */
  predicate IsRepeat(stack: seq<Frame>, tok: Token, fold: Name -> Name) {
    ExpectsKey(stack) && tok.Text? && fold(tok.text) in Top(stack).keys
  }

  function Advance(stack: seq<Frame>, tok: Token, fold: Name -> Name): seq<Frame> {
    if ExpectsKey(stack) then
      if tok.Text? then Pop(stack) + [Frame(true, false, Top(stack).keys + {fold(tok.text)})]
      else Ended(Pop(stack))
    else
      match tok
      case BeginObj => stack + [Frame(true, true, {})]
      case BeginArr => stack + [Frame(false, false, {})]
      case EndArr => Ended(Pop(stack))
      case EndObj => Ended(Pop(stack))
      case _ => Ended(stack)
  }

  /** Whether the machine, from `stack`, meets a repeated key in `tokens`. */
  function Meets(stack: seq<Frame>, tokens: seq<Token>, fold: Name -> Name): bool
    decreases |tokens|
  {
    tokens != [] && (IsRepeat(stack, tokens[0], fold) || Meets(Advance(stack, tokens[0], fold), tokens[1..], fold))
  }

  /** jsonKeysCollide, on the tokens the decoder yields before its end or an error. */
  method JsonKeysCollide(tokens: seq<Token>, fold: Name -> Name) returns (collide: bool)
    ensures collide == Meets([], tokens, fold)
  {
    var stack: seq<Frame> := [];
    var i := 0;
    while i < |tokens|
      invariant i <= |tokens|
      invariant Meets([], tokens, fold) == Meets(stack, tokens[i..], fold)
    {
      var tok := tokens[i];
      assert tokens[i..][1..] == tokens[i + 1..];
      i := i + 1;
      var top := Top(stack);
      if top.isObject && top.expectKey {
        if tok.Text? {
          var k := fold(tok.text);
          if k in top.keys {
            return true;
          }
          stack := Pop(stack) + [top.(keys := top.keys + {k}, expectKey := false)];
        } else {
          stack := Ended(Pop(stack));
        }
        continue;
      }
      match tok {
        case BeginObj => stack := stack + [Frame(true, true, {})];
        case BeginArr => stack := stack + [Frame(false, false, {})];
        case EndArr => stack := Ended(Pop(stack));
        case EndObj => stack := Ended(Pop(stack));
        case _ => stack := Ended(stack);
      }
    }
    return false;
  }

  // ---- the machine finds exactly the collisions -----------------------------------------

  lemma MeetsOne(stack: seq<Frame>, tok: Token, rest: seq<Token>, fold: Name -> Name)
    ensures Meets(stack, [tok] + rest, fold)
         == (IsRepeat(stack, tok, fold) || Meets(Advance(stack, tok, fold), rest, fold))
  {
    assert ([tok] + rest)[1..] == rest;
  }

  /** The keys of the first `n` members, folded. */
  function Keys(ms: seq<Member>, fold: Name -> Name): set<Name> {
    set i | 0 <= i < |ms| :: fold(ms[i].key)
  }

  lemma EndedTop(stack: seq<Frame>, f: Frame)
    ensures Top(stack + [f]) == f && Pop(stack + [f]) == stack
    ensures f.isObject ==> Ended(stack + [f]) == stack + [f.(expectKey := true)]
    ensures !f.isObject ==> Ended(stack + [f]) == stack + [f]
  {
  }

  /** Reading a whole value: a repeat is met exactly when the value has a collision; then the enclosing object expects its next key. */
  lemma {:induction false} MeetsValue(v: Json, stack: seq<Frame>, rest: seq<Token>, fold: Name -> Name)
    requires !ExpectsKey(stack)
    ensures Meets(stack, Tokens(v) + rest, fold) == (Collides(v, fold) || Meets(Ended(stack), rest, fold))
    decreases v
  {
    hide Meets, Ended, Top, Pop;
    match v
    case Arr(items) =>
      var f := Frame(false, false, {});
      assert Tokens(v) + rest == [BeginArr] + (ItemTokens(items) + ([EndArr] + rest));
      MeetsOne(stack, BeginArr, ItemTokens(items) + ([EndArr] + rest), fold);
      EndedTop(stack, f);
      MeetsItems(items, stack + [f], [EndArr] + rest, fold);
      MeetsOne(stack + [f], EndArr, rest, fold);
    case Obj(ms) =>
      MeetsObject(v, ms, stack, rest, fold);
    case _ =>
      MeetsOne(stack, Tokens(v)[0], rest, fold);
  }

  lemma {:induction false} MeetsObject(v: Json, ms: seq<Member>, stack: seq<Frame>, rest: seq<Token>, fold: Name -> Name)
    requires !ExpectsKey(stack) && v == Obj(ms)
    ensures Meets(stack, Tokens(v) + rest, fold) == (Collides(v, fold) || Meets(Ended(stack), rest, fold))
    decreases v, 0
  {
    hide Meets, Ended, Top, Pop, Collides, CollidesFrom;
    var f := Frame(true, true, {});
    assert Tokens(v) + rest == [BeginObj] + (MemberTokens(ms) + ([EndObj] + rest));
    MeetsOne(stack, BeginObj, MemberTokens(ms) + ([EndObj] + rest), fold);
    MeetsMembers(ms, 0, stack, rest, fold);
    assert ms[0..] == ms && ms[..0] == [];
    assert Keys(ms[..0], fold) == {};
    NoMemberRepeats(ms, fold);
  }

  lemma {:induction false} MeetsItems(items: seq<Json>, stack: seq<Frame>, rest: seq<Token>, fold: Name -> Name)
    requires !ExpectsKey(stack) && Ended(stack) == stack
    ensures Meets(stack, ItemTokens(items) + rest, fold)
         == ((exists i :: 0 <= i < |items| && Collides(items[i], fold)) || Meets(stack, rest, fold))
    decreases items
  {
    hide Meets, Ended, Top, Pop;
    if items == [] {
      assert ItemTokens(items) + rest == rest;
    } else {
      assert ItemTokens(items) + rest == Tokens(items[0]) + (ItemTokens(items[1..]) + rest);
      MeetsValue(items[0], stack, ItemTokens(items[1..]) + rest, fold);
      MeetsItems(items[1..], stack, rest, fold);
      SomeItem(items, fold);
    }
  }

  lemma SomeItem(items: seq<Json>, fold: Name -> Name)
    requires items != []
    ensures (exists i :: 0 <= i < |items| && Collides(items[i], fold))
       <==> Collides(items[0], fold) || (exists i :: 0 <= i < |items[1..]| && Collides(items[1..][i], fold))
  {
    hide Collides;
    if i :| 0 < i < |items| && Collides(items[i], fold) {
      assert items[1..][i - 1] == items[i];
    }
  }

  /** From the `n`-th member on, some key repeats one before it, or some value collides. */
  predicate CollidesFrom(ms: seq<Member>, n: nat, fold: Name -> Name)
    requires n <= |ms|
  {
    || (exists j :: n <= j < |ms| && fold(ms[j].key) in Keys(ms[..j], fold))
    || (exists j :: n <= j < |ms| && Collides(ms[j].value, fold))
  }

  lemma NoMemberRepeats(ms: seq<Member>, fold: Name -> Name)
    ensures CollidesFrom(ms, 0, fold) <==> Collides(Obj(ms), fold)
  {
    if Repeats(ms, fold) {
      var i, j :| 0 <= i < j < |ms| && fold(ms[i].key) == fold(ms[j].key);
      assert ms[..j][i] == ms[i];
      assert fold(ms[j].key) in Keys(ms[..j], fold);
    }
    if j :| 0 <= j < |ms| && fold(ms[j].key) in Keys(ms[..j], fold) {
      var i :| 0 <= i < j && fold(ms[..j][i].key) == fold(ms[j].key);
      assert fold(ms[i].key) == fold(ms[j].key);
    }
  }

  lemma CollidesNext(ms: seq<Member>, n: nat, fold: Name -> Name)
    requires n < |ms|
    ensures CollidesFrom(ms, n, fold) <==>
      fold(ms[n].key) in Keys(ms[..n], fold) || Collides(ms[n].value, fold) || CollidesFrom(ms, n + 1, fold)
    ensures Keys(ms[..n + 1], fold) == Keys(ms[..n], fold) + {fold(ms[n].key)}
  {
    hide Collides;
    assert ms[..n + 1] == ms[..n] + [ms[n]];
    forall k
      ensures k in Keys(ms[..n + 1], fold) <==> k in Keys(ms[..n], fold) || k == fold(ms[n].key)
    {
      if k in Keys(ms[..n], fold) {
        var i :| 0 <= i < n && fold(ms[..n][i].key) == k;
        assert ms[..n + 1][i] == ms[..n][i];
      }
      assert ms[..n + 1][n] == ms[n];
    }
  }

  lemma {:induction false} MeetsMembers(ms: seq<Member>, n: nat, stack: seq<Frame>, rest: seq<Token>, fold: Name -> Name)
    requires n <= |ms|
    ensures Meets(stack + [Frame(true, true, Keys(ms[..n], fold))], MemberTokens(ms[n..]) + ([EndObj] + rest), fold)
         == (CollidesFrom(ms, n, fold) || Meets(Ended(stack), rest, fold))
    decreases ms[n..], 1
  {
    hide Meets, Ended, Top, Pop, Keys;
    var f := Frame(true, true, Keys(ms[..n], fold));
    EndedTop(stack, f);
    if n == |ms| {
      assert MemberTokens(ms[n..]) + ([EndObj] + rest) == [EndObj] + rest;
      MeetsOne(stack + [f], EndObj, rest, fold);
    } else {
      MeetsMember(ms, n, stack, rest, fold);
    }
  }

  lemma {:induction false} MeetsMember(ms: seq<Member>, n: nat, stack: seq<Frame>, rest: seq<Token>, fold: Name -> Name)
    requires n < |ms|
    ensures Meets(stack + [Frame(true, true, Keys(ms[..n], fold))], MemberTokens(ms[n..]) + ([EndObj] + rest), fold)
         == (CollidesFrom(ms, n, fold) || Meets(Ended(stack), rest, fold))
    decreases ms[n..], 0
  {
    hide Meets, Ended, Top, Pop, Keys, Collides, CollidesFrom;
    var f := Frame(true, true, Keys(ms[..n], fold));
    var k, v := ms[n].key, ms[n].value;
    var more := MemberTokens(ms[n + 1..]) + ([EndObj] + rest);
    assert ms[n..][1..] == ms[n + 1..];
    assert MemberTokens(ms[n..]) + ([EndObj] + rest) == [Text(k)] + (Tokens(v) + more);
    EndedTop(stack, f);
    MeetsOne(stack + [f], Text(k), Tokens(v) + more, fold);
    CollidesNext(ms, n, fold);
    var g := Frame(true, false, f.keys + {fold(k)});
    EndedTop(stack, g);
    MeetsValue(v, stack + [g], more, fold);
    MeetsMembers(ms, n + 1, stack, rest, fold);
  }

  /** The stack machine agrees with the recursive definition on every JSON value. */
  lemma CollideExactly(v: Json, fold: Name -> Name)
    ensures Meets([], Tokens(v), fold) <==> Collides(v, fold)
  {
    MeetsValue(v, [], [], fold);
    assert Tokens(v) + [] == Tokens(v);
  }
}
