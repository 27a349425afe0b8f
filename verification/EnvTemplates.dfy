/**
  The references to variables a value may hold (tagwrite.go): the two regular
  expressions the planner follows, the one it looks for uses with, and the change
  of a tag. Docker's reference grammar is a parameter.
 */
module EnvTemplates {
  import opened Text
  import opened EnvInsert
  import opened EnvEdit

  /** How many name bytes a text starts with. */
  function NameLength(s: string): (n: nat)
    ensures n <= |s| && (n < |s| ==> !NameByte(s[n]))
    ensures forall i :: 0 <= i < n ==> NameByte(s[i])
  {
    if s == "" || !NameByte(s[0]) then 0 else 1 + NameLength(s[1..])
  }

  predicate NoneOf(s: string, bad: string) {
    forall i :: 0 <= i < |s| ==> s[i] !in bad
  }

  const OPERATORS := [":-", "-", ":?", "?"]

  /** Nothing, or an operator and text without any byte of `bad`. */
  predicate Tail(t: string, bad: string) {
    t == "" || exists k :: 0 <= k < 4 && OPERATORS[k] <= t && NoneOf(t[|OPERATORS[k]|..], bad)
  }

  const BRACES := "${}"
  const TAG_BREAKS := "${}:/@"

  /** The name in `$NAME` or `${NAME<tail>}`, when the text is just that. */
  function Reference(s: string, bad: string): Option<string> {
    if |s| < 2 || s[0] != '$' then None
    else if s[1] == '{' then
      if |s| < 3 || s[|s| - 1] != '}' then None
      else
        var inner := s[2..|s| - 1];
        var n := NameLength(inner);
        if ValidName(inner[..n]) && Tail(inner[n..], bad) then Some(inner[..n]) else None
    else if ValidName(s[1..]) then Some(s[1..])
    else None
  }

  function WholeVarRef(raw: string): Option<string> {
    Reference(raw, BRACES)
  }

  function LastDollar(s: string): (r: Option<nat>)
    ensures r.Some? ==> r.value < |s| && s[r.value] == '$' && '$' !in s[r.value + 1..]
    ensures r.None? ==> '$' !in s
  {
    if s == "" then None
    else
      match LastDollar(s[1..])
      case Some(i) => Some(i + 1)
      case None => if s[0] == '$' then Some(0) else None
  }

  /** The one variable a value's whole tag is. */
  function TrailingTagVar(raw: string): Option<string> {
    match LastDollar(raw)
    case None => None
    case Some(p) =>
      if p < 2 || raw[p - 1] != ':' || '\n' in raw[..p - 1] || '@' in raw[..p - 1] then None
      else Reference(raw[p..], TAG_BREAKS)
  }

  // ---- the two expressions, as their grammar -------------------------------------

  predicate BracedAs(s: string, name: string, tail: string) {
    s == "${" + name + tail + "}"
  }

  /** `s` is one reference to `name`. */
  ghost predicate Spelled(s: string, name: string, bad: string) {
    ValidName(name) && (s == "$" + name || exists tail :: Tail(tail, bad) && BracedAs(s, name, tail))
  }

  lemma {:induction false} NameEnds(name: string, tail: string)
    requires forall i :: 0 <= i < |name| ==> NameByte(name[i])
    requires tail != "" ==> !NameByte(tail[0])
    ensures NameLength(name + tail) == |name|
    decreases |name|
  {
    if name == "" {
      assert name + tail == tail;
    } else {
      assert (name + tail)[1..] == name[1..] + tail;
      NameEnds(name[1..], tail);
    }
  }

  lemma TailStarts(t: string, bad: string)
    requires Tail(t, bad) && t != ""
    ensures !NameByte(t[0])
  {
    var k :| 0 <= k < 4 && OPERATORS[k] <= t && NoneOf(t[|OPERATORS[k]|..], bad);
    assert t[0] == OPERATORS[k][0];
  }

  lemma ReferenceExactly(s: string, name: string, bad: string)
    ensures Reference(s, bad) == Some(name) <==> Spelled(s, name, bad)
  {
    if Reference(s, bad) == Some(name) {
      ReferenceIsSpelled(s, name, bad);
    }
    if Spelled(s, name, bad) {
      SpelledIsReference(s, name, bad);
    }
  }

  lemma ReferenceIsSpelled(s: string, name: string, bad: string)
    requires Reference(s, bad) == Some(name)
    ensures Spelled(s, name, bad)
  {
    hide Tail, ValidName;
    if s[1] == '{' {
      var inner := s[2..|s| - 1];
      var tail := inner[NameLength(inner)..];
      assert inner == name + tail;
      assert s == "${" + inner + "}";
      assert BracedAs(s, name, tail);
    } else {
      assert s == "$" + s[1..];
    }
  }

  lemma SpelledIsReference(s: string, name: string, bad: string)
    requires Spelled(s, name, bad)
    ensures Reference(s, bad) == Some(name)
  {
    hide Tail, ValidName;
    NameIsNotEmpty(name);
    if s == "$" + name {
      assert s[1] == name[0] && s[1..] == name;
    } else {
      var tail :| Tail(tail, bad) && BracedAs(s, name, tail);
      BracedIsReference(s, name, tail, bad);
    }
  }

  lemma BracedIsReference(s: string, name: string, tail: string, bad: string)
    requires ValidName(name) && Tail(tail, bad) && BracedAs(s, name, tail)
    ensures Reference(s, bad) == Some(name)
  {
    NameIsNotEmpty(name);
    if tail != "" { TailStarts(tail, bad); }
    NameEnds(name, tail);
    hide Tail, ValidName, NameLength;
    assert s[2..|s| - 1] == name + tail;
    assert (name + tail)[..|name|] == name && (name + tail)[|name|..] == tail;
  }

  lemma NameIsNotEmpty(name: string)
    requires ValidName(name)
    ensures name != "" && name[0] != '{' && '$' !in name
    ensures forall i :: 0 <= i < |name| ==> NameByte(name[i])
  {
  }

  /** A whole-value reference: exactly the texts the grammar gives, and the name in them. */
  lemma WholeVarExactly(raw: string, name: string)
    ensures WholeVarRef(raw) == Some(name) <==> Spelled(raw, name, BRACES)
  {
    ReferenceExactly(raw, name, BRACES);
  }

  predicate TaggedAs(raw: string, repository: string, ref: string) {
    && raw == repository + ":" + ref
    && repository != "" && '\n' !in repository && '@' !in repository
  }

  lemma SpelledHasOneDollar(ref: string, name: string, bad: string)
    requires Spelled(ref, name, bad) && '$' in bad
    ensures ref != "" && ref[0] == '$' && '$' !in ref[1..]
  {
    NameIsNotEmpty(name);
    if ref == "$" + name {
      assert ref[1..] == name;
    } else {
      var tail :| Tail(tail, bad) && BracedAs(ref, name, tail);
      TailHoldsNoDollar(tail, bad);
      assert ref[1..] == "{" + name + tail + "}";
    }
  }

  lemma TailHoldsNoDollar(t: string, bad: string)
    requires Tail(t, bad) && '$' in bad
    ensures '$' !in t
  {
    if t != "" {
      var k :| 0 <= k < 4 && OPERATORS[k] <= t && NoneOf(t[|OPERATORS[k]|..], bad);
      var n := |OPERATORS[k]|;
      assert t == t[..n] + t[n..];
      assert t[..n] == OPERATORS[k];
      assert '$' !in OPERATORS[k];
    }
  }

  lemma {:induction false} LastDollarAt(front: string, s: string)
    requires s != "" && s[0] == '$' && '$' !in s[1..]
    ensures LastDollar(front + s) == Some(|front|)
    decreases |front|
  {
    if front == "" {
      assert front + s == s;
    } else {
      assert (front + s)[1..] == front[1..] + s;
      LastDollarAt(front[1..], s);
    }
  }

  /** A trailing tag variable: exactly a repository, a colon, and one reference. */
  lemma TrailingTagExactly(raw: string, name: string)
    ensures TrailingTagVar(raw) == Some(name) <==>
      exists repository, ref :: TaggedAs(raw, repository, ref) && Spelled(ref, name, TAG_BREAKS)
  {
    hide Spelled, Reference;
    if TrailingTagVar(raw) == Some(name) {
      var p := LastDollar(raw).value;
      ReferenceExactly(raw[p..], name, TAG_BREAKS);
      assert raw == raw[..p - 1] + ":" + raw[p..];
      assert TaggedAs(raw, raw[..p - 1], raw[p..]) && Spelled(raw[p..], name, TAG_BREAKS);
    }
    if exists repository, ref :: TaggedAs(raw, repository, ref) && Spelled(ref, name, TAG_BREAKS) {
      var repository, ref :| TaggedAs(raw, repository, ref) && Spelled(ref, name, TAG_BREAKS);
      SpelledHasOneDollar(ref, name, TAG_BREAKS);
      LastDollarAt(repository + ":", ref);
      ReferenceExactly(ref, name, TAG_BREAKS);
      assert raw[|repository| + 1..] == ref && raw[..|repository|] == repository;
    }
  }

  // ---- the tag --------------------------------------------------------------------

  /** Docker's reference grammar: the tag of a plain name:tag, and the tags a name takes. */
  datatype Grammar = Grammar(tagOf: string -> Option<string>, takesTag: (string, string) -> bool)

  /** tagChange: the tag that turns `current` into `img`. */
  function TagChange(g: Grammar, current: string, img: string): Option<string> {
    match g.tagOf(current)
    case None => None
    case Some(was) =>
      var n := |current| - |was| - 1;
      if n < 0 || current[n..] != ":" + was then None
      else if !(current[..n] + ":" <= img) then None
      else
        var tag := img[n + 1..];
        if '@' in tag || !g.takesTag(current, tag) || ':' in tag || '/' in tag then None else Some(tag)
  }

  /** `tag` is the only difference between the two images. */
  predicate OnlyTagDiffers(prefix: string, was: string, tag: string, current: string, img: string) {
    current == prefix + ":" + was && img == prefix + ":" + tag
  }

  /** A tag change is exactly a new tag on an unchanged spelling of the repository. */
  lemma TagChangeExactly(g: Grammar, current: string, img: string, tag: string)
    ensures TagChange(g, current, img) == Some(tag) <==>
      && g.tagOf(current).Some?
      && (exists prefix :: OnlyTagDiffers(prefix, g.tagOf(current).value, tag, current, img))
      && NoneOf(tag, "@:/") && g.takesTag(current, tag)
  {
    if TagChange(g, current, img) == Some(tag) {
      var was := g.tagOf(current).value;
      var n := |current| - |was| - 1;
      assert current == current[..n] + ":" + was;
      assert img[..n + 1] == current[..n] + ":";
      assert OnlyTagDiffers(current[..n], was, tag, current, img);
    }
    if g.tagOf(current).Some? && NoneOf(tag, "@:/") && g.takesTag(current, tag) {
      var was := g.tagOf(current).value;
      if exists prefix :: OnlyTagDiffers(prefix, was, tag, current, img) {
        var prefix :| OnlyTagDiffers(prefix, was, tag, current, img);
        assert current[|prefix|..] == ":" + was;
        assert img[|prefix| + 1..] == tag;
        assert current[..|prefix|] == prefix;
      }
    }
  }

  /** Docker's tag expression matches at least one character. */
  ghost predicate RefusesEmptyTags(g: Grammar) {
    forall name :: !g.takesTag(name, "")
  }

  /** The tag of an image over the file-safe alphabet is a safe value. */
  lemma TagIsSafe(g: Grammar, current: string, img: string, tag: string)
    requires SafeValue(img) && TagChange(g, current, img) == Some(tag) && RefusesEmptyTags(g)
    ensures SafeValue(tag)
  {
  }

  // ---- uses -----------------------------------------------------------------------

  predicate Braced(name: string, s: string) {
    "{" + name <= s && 1 + |name| < |s| && s[1 + |name|] in "}:?+-"
  }

  predicate Bare(name: string, s: string) {
    name <= s && (|name| == |s| || !NameByte(s[|name|]))
  }

  /** A reference to `name` at offset `p`, whatever follows it. */
  predicate RefersAt(name: string, text: string, p: nat)
    requires p < |text|
  {
    && text[p] == '$'
    && (Braced(name, text[p + 1..]) || Bare(name, text[p + 1..]))
  }

  /** firstUse's expression finds `name` in a value. */
  predicate Refers(name: string, text: string) {
    exists p :: 0 <= p < |text| && RefersAt(name, text, p)
  }

  /** `$NAME` is a use where the name ends, and `${NAME` where an operator or the brace follows; elsewhere they are not. */
  lemma UsedExactly(front: string, name: string, rest: string)
    requires ValidName(name)
    ensures RefersAt(name, front + "$" + name + rest, |front|) <==> rest == "" || !NameByte(rest[0])
    ensures RefersAt(name, front + "${" + name + rest, |front|) <==> rest != "" && rest[0] in "}:?+-"
  {
    var bare, braced := front + "$" + name + rest, front + "${" + name + rest;
    NameIsNotEmpty(name);
    assert NameByte(name[0]);
    assert bare[|front| + 1..] == name + rest && (name + rest)[..|name|] == name && (name + rest)[0] == name[0];
    assert braced[|front| + 1..] == "{" + name + rest && ("{" + name + rest)[..1 + |name|] == "{" + name;
    assert ("{" + name + rest)[0] == '{' && !(name <= "{" + name + rest);
    hide ValidName;
  }

  /** A value of either followed form uses the variable it names. */
  lemma FollowedIsUse(raw: string, name: string)
    requires WholeVarRef(raw) == Some(name) || TrailingTagVar(raw) == Some(name)
    ensures Refers(name, raw)
  {
    if WholeVarRef(raw) == Some(name) {
      SpelledIsUse("", raw, name, BRACES) by { WholeVarExactly(raw, name); }
      assert "" + raw == raw;
    } else {
      TrailingTagExactly(raw, name);
      var repository, ref :| TaggedAs(raw, repository, ref) && Spelled(ref, name, TAG_BREAKS);
      SpelledIsUse(repository + ":", ref, name, TAG_BREAKS);
    }
  }

  lemma SpelledIsUse(front: string, ref: string, name: string, bad: string)
    requires Spelled(ref, name, bad)
    ensures Refers(name, front + ref)
  {
    var text, p := front + ref, |front|;
    if ref == "$" + name {
      assert text[p + 1..] == name;
    } else {
      var tail :| Tail(tail, bad) && BracedAs(ref, name, tail);
      assert text[p + 1..] == "{" + name + tail + "}";
      assert ("{" + name + tail + "}")[..1 + |name|] == "{" + name;
      TailOperator(tail, bad);
      assert text[p + 1..][1 + |name|] == (tail + "}")[0];
    }
    assert RefersAt(name, text, p);
  }

  lemma TailOperator(t: string, bad: string)
    requires Tail(t, bad)
    ensures (t + "}")[0] in "}:?+-"
  {
    if t != "" {
      var k :| 0 <= k < 4 && OPERATORS[k] <= t && NoneOf(t[|OPERATORS[k]|..], bad);
      assert t[0] == OPERATORS[k][0];
    }
  }
}
