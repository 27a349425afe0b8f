/**
  Planning a variable's new value (tagwrite.go): where compose takes the variable
  from, the templates that lead to another variable, and the edit. The plan is a
  class with the fields the planner grows; `changes` is what each edit is for.
 */
module EnvPlan {
  import opened Text
  import opened EnvScan
  import opened EnvEdit
  import opened EnvLaws
  import opened EnvInsert
  import opened EnvQuoted
  import opened TextEdits
  import opened EnvRewrite
  import opened EnvFile
  import opened EnvTail
  import opened EnvEval
  import opened EnvProject
  import opened EnvTemplates

  datatype ReadFile = ReadFile(data: string, existed: bool)

  /**
    What a plan starts from. `files` are the project's env files in load order; when
    there are none, `listed` is false and the one file, if the project has a
    directory, is the .env the plan would create.
   */
  datatype Setting = Setting(sc: Scanner, process: set<string>, grammar: Grammar, files: seq<ReadFile>, listed: bool)

  ghost predicate ValidSetting(w: Setting) {
    && (forall f :: 0 <= f < |w.files| && !w.files[f].existed ==> w.files[f].data == "")
    && (!w.listed ==> |w.files| <= 1 && (w.files != [] ==> w.files[0] == ReadFile("", false)))
    && (w.listed ==> w.files != [])
  }

  datatype PlanError =
    | UnsafeValue | SharedVariable | SetInProcess | MissingFile | Unparsed(error: ScanError)
    | InheritedLine | NoEnvFile | TooDeep | NotATag | NotFollowed | Overlapping

  datatype Decision<T> = Done(value: T) | Refused(reason: PlanError)

  // ---- the files, as compose reads them -------------------------------------------

  ghost function StatementsOf(w: Setting, f: nat): seq<Statement>
    requires f < |w.files|
  {
    match w.sc.Scan(BodyOf(w.files[f].data))
    case Ok(sts) => sts
    case Err(_) => []
  }

  ghost function BindingsAt(w: Setting, f: nat): (r: seq<Binding>)
    requires f < |w.files|
    ensures |r| == |StatementsOf(w, f)|
  {
    Bindings(BodyOf(w.files[f].data), StatementsOf(w, f))
  }

  ghost function AllBindings(w: Setting): (r: seq<seq<Binding>>)
    ensures |r| == |w.files| && forall f :: 0 <= f < |r| ==> r[f] == BindingsAt(w, f)
  {
    seq(|w.files|, f requires 0 <= f < |w.files| => BindingsAt(w, f))
  }

  /** Why a file cannot be read: it does not exist, or does not parse. */
  ghost function Unreadable(w: Setting, f: nat): Option<PlanError>
    requires f < |w.files|
  {
    if !w.listed then None
    else if !w.files[f].existed then Some(MissingFile)
    else match w.sc.ScanFile(w.files[f].data)
         case Err(e) => Some(Unparsed(e))
         case Ok(_) => None
  }

  ghost function FirstUnreadable(w: Setting, f: nat): Option<PlanError>
    requires f <= |w.files|
    decreases |w.files| - f
  {
    if f == |w.files| then None
    else if Unreadable(w, f).Some? then Unreadable(w, f)
    else FirstUnreadable(w, f + 1)
  }

  lemma {:induction false} ReadUpTo(w: Setting, f: nat)
    requires f <= |w.files| && forall g :: 0 <= g < f ==> Unreadable(w, g).None?
    ensures FirstUnreadable(w, 0) == FirstUnreadable(w, f)
  {
    if f > 0 {
      ReadUpTo(w, f - 1);
    }
  }

  lemma {:induction false} AllReadable(w: Setting, f: nat, g: nat)
    requires f <= g < |w.files| && FirstUnreadable(w, f).None?
    ensures Unreadable(w, g).None?
    decreases g - f
  {
    if f < g {
      AllReadable(w, f + 1, g);
    }
  }

  /** A file that parses is its statements, its byte order mark counted in the offsets. */
  lemma ReadsAs(w: Setting, f: nat)
    requires ValidSetting(w) && f < |w.files| && Unreadable(w, f).None?
    ensures w.sc.Scan(BodyOf(w.files[f].data)) == Ok(StatementsOf(w, f))
    ensures w.sc.ScanFile(w.files[f].data) == Ok(ShiftAll(StatementsOf(w, f), |MarkOf(w.files[f].data)|))
  {
    hide *;
    MarkSkipped(w.sc, w.files[f].data);
    Scans(w, f);
    FileReads(w.sc, w.files[f].data, StatementsOf(w, f));
  }

  lemma Scans(w: Setting, f: nat)
    requires ValidSetting(w) && f < |w.files| && Unreadable(w, f).None?
    ensures w.sc.Scan(BodyOf(w.files[f].data)) == Ok(StatementsOf(w, f))
  {
    hide w.sc.Scan, w.sc.ScanFile;
    MarkSkipped(w.sc, w.files[f].data);
    if !w.listed {
      EmptyScan(w.sc);
      assert BodyOf("") == "";
    }
  }

  lemma MarkSkipped(sc: Scanner, data: string)
    ensures sc.ScanFile(data).Ok? <==> sc.Scan(BodyOf(data)).Ok?
  {
    hide sc.Scan;
    assert BodyOf(data) == if BOM <= data then data[3..] else data;
  }

  lemma FileReads(sc: Scanner, data: string, sts: seq<Statement>)
    requires sc.Scan(BodyOf(data)) == Ok(sts)
    ensures sc.ScanFile(data) == Ok(ShiftAll(sts, |MarkOf(data)|))
  {
    hide sc.Scan;
    assert BodyOf(data) == if BOM <= data then data[3..] else data;
    assert [] + ShiftAll(sts, 3) == ShiftAll(sts, 3);
    ShiftNothing(sts);
  }

  lemma EmptyScan(sc: Scanner)
    ensures sc.Scan("") == Ok([])
  {
  }

  lemma ShiftNothing(sts: seq<Statement>)
    ensures ShiftAll(sts, 0) == sts
  {
  }

  // ---- where compose takes a variable from ------------------------------------------

  /** Whether a statement declares its key: a bare line does when the process or an earlier line has it. */
  predicate Declaring(process: set<string>, bs: seq<Binding>, i: nat)
    requires i < |bs|
  {
    bs[i].inherited ==>
      bs[i].key in process || exists j :: 0 <= j < i && bs[j].key == bs[i].key && !bs[j].inherited
  }

  /** The last of the first `n` statements that declares `name`. */
  predicate TakenFrom(process: set<string>, bs: seq<Binding>, n: nat, name: string, i: nat)
    requires n <= |bs|
  {
    && i < n && bs[i].key == name && Declaring(process, bs, i)
    && forall j :: i < j < n && bs[j].key == name ==> !Declaring(process, bs, j)
  }

  predicate TakenFromNone(process: set<string>, bs: seq<Binding>, n: nat, name: string)
    requires n <= |bs|
  {
    forall j :: 0 <= j < n && bs[j].key == name ==> !Declaring(process, bs, j)
  }

  /** An assignment taken is the last mention of its key, so setting it sets the key. */
  lemma TakenIsLast(process: set<string>, bs: seq<Binding>, name: string, i: nat)
    requires TakenFrom(process, bs, |bs|, name, i) && !bs[i].inherited
    ensures LastAssignment(bs, i)
  {
    MentionsDeclare(process, bs, i);
  }

  lemma MentionsDeclare(process: set<string>, bs: seq<Binding>, i: nat)
    requires i < |bs| && !bs[i].inherited
    ensures forall k :: i < k < |bs| && bs[k].key == bs[i].key ==> Declaring(process, bs, k)
  {
  }

  /** The environment agrees: a key is there exactly when some statement declares it. */
  lemma NoneTakenIsUnassigned(process: set<string>, bs: seq<Binding>, name: string)
    requires TakenFromNone(process, bs, |bs|, name)
    ensures Unassigned(bs, name)
  {
  }

  /** Where the assignment a variable is taken from is, or the file a new one belongs in. */
  datatype Place = Assigned(file: nat, index: nat) | Undeclared(file: nat)

  ghost predicate InFile(w: Setting, f: nat, i: nat) {
    f < |w.files| && i < |BindingsAt(w, f)|
  }

  ghost predicate Takes(w: Setting, name: string, f: nat, i: nat) {
    && InFile(w, f, i)
    && Offset(AllBindings(w), f) + i < |Flatten(AllBindings(w))|
    && TakenFrom(w.process, Flatten(AllBindings(w)), |Flatten(AllBindings(w))|, name, Offset(AllBindings(w), f) + i)
  }

  ghost predicate SomeTakes(w: Setting, name: string) {
    exists f, i :: Takes(w, name, f, i)
  }

  ghost function TakenPlace(w: Setting, name: string): (p: (nat, nat))
    requires SomeTakes(w, name)
    ensures InFile(w, p.0, p.1)
  {
    var f, i :| Takes(w, name, f, i);
    (f, i)
  }

  lemma TakenPlaceIs(w: Setting, name: string, f: nat, i: nat)
    requires Takes(w, name, f, i)
    ensures SomeTakes(w, name) && TakenPlace(w, name) == (f, i)
  {
    hide Takes;
    forall g, j | Takes(w, name, g, j)
      ensures g == f && j == i
    {
      TakesOnce(w, name, f, i, g, j);
    }
  }

  /** assignmentFor, as a relation over all the statements. */
  ghost function AssignmentOf(w: Setting, name: string): Decision<Place>
  {
    if FirstUnreadable(w, 0).Some? then Refused(FirstUnreadable(w, 0).value)
    else if SomeTakes(w, name) then
      var p := TakenPlace(w, name);
      if BindingsAt(w, p.0)[p.1].inherited then Refused(InheritedLine) else Done(Assigned(p.0, p.1))
    else if w.files == [] then Refused(NoEnvFile)
    else Done(Undeclared(|w.files| - 1))
  }

  lemma TakesOnce(w: Setting, name: string, f: nat, i: nat, g: nat, j: nat)
    requires Takes(w, name, f, i) && Takes(w, name, g, j)
    ensures f == g && i == j
  {
    hide BindingsAt, Flatten, Offset;
    var bss := AllBindings(w);
    if f < g {
      OffsetMonotone(bss, f, g);
    } else if g < f {
      OffsetMonotone(bss, g, f);
    }
  }

  /** The keys the first `n` statements declare. */
  function DeclaredKeys(process: set<string>, bs: seq<Binding>, n: nat): set<string>
    requires n <= |bs|
  {
    set i | 0 <= i < n && Declaring(process, bs, i) :: bs[i].key
  }

  lemma DeclaredNext(process: set<string>, bs: seq<Binding>, n: nat)
    requires n < |bs|
    ensures Declaring(process, bs, n) <==>
      (bs[n].inherited ==> bs[n].key in process || bs[n].key in DeclaredKeys(process, bs, n))
    ensures DeclaredKeys(process, bs, n + 1)
         == DeclaredKeys(process, bs, n) + if Declaring(process, bs, n) then {bs[n].key} else {}
  {
    if Declaring(process, bs, n) && bs[n].inherited && bs[n].key !in process {
      var j :| 0 <= j < n && bs[j].key == bs[n].key && !bs[j].inherited;
      assert Declaring(process, bs, j);
    }
    forall i | 0 <= i < n && Declaring(process, bs, i) && bs[i].key == bs[n].key && bs[n].key !in process
      ensures Declaring(process, bs, n)
    {
      if bs[i].inherited {
        var j :| 0 <= j < i && bs[j].key == bs[i].key && !bs[j].inherited;
      }
    }
  }

  // ---- reading the statements of a file ---------------------------------------------

  /** The `i`-th statement of a file as the scan of the whole file gives it. */
  ghost predicate IsStatement(w: Setting, f: nat, i: nat, st: Statement) {
    && InFile(w, f, i)
    && BindingsAt(w, f)[i].key == st.key
    && BindingsAt(w, f)[i].inherited == st.inherited
    && BindingsAt(w, f)[i].quote == st.quote
    && st == Shift(StatementsOf(w, f)[i], |MarkOf(w.files[f].data)|)
    && (!st.inherited ==>
          && |MarkOf(w.files[f].data)| <= st.valueStart <= st.valueEnd <= |w.files[f].data|
          && w.files[f].data[st.valueStart..st.valueEnd] == BindingsAt(w, f)[i].text)
  }

  lemma ReadStatements(w: Setting, f: nat, sts: seq<Statement>)
    requires f < |w.files| && w.sc.ScanFile(w.files[f].data) == Ok(sts)
    ensures w.sc.Scan(BodyOf(w.files[f].data)) == Ok(StatementsOf(w, f))
    ensures sts == ShiftAll(StatementsOf(w, f), |MarkOf(w.files[f].data)|)
  {
    hide w.sc.Scan, w.sc.ScanFile;
    MarkSkipped(w.sc, w.files[f].data);
    FileReads(w.sc, w.files[f].data, StatementsOf(w, f));
  }

  lemma ReadStatement(w: Setting, f: nat, i: nat, sts: seq<Statement>)
    requires f < |w.files| && w.sc.ScanFile(w.files[f].data) == Ok(sts) && i < |sts|
    ensures |sts| == |BindingsAt(w, f)| && IsStatement(w, f, i, sts[i])
  {
    hide w.sc.Scan, w.sc.ScanFile;
    ReadStatements(w, f, sts);
    var data := w.files[f].data;
    var st := StatementsOf(w, f)[i];
    ScanOrdered(w.sc, BodyOf(data), StatementsOf(w, f));
    var d := |MarkOf(data)|;
    if !st.inherited {
      assert 0 <= st.valueStart <= st.valueEnd <= |BodyOf(data)|;
      assert data[st.valueStart + d..st.valueEnd + d] == BodyOf(data)[st.valueStart..st.valueEnd];
    }
  }

  lemma UnlistedHoldsNothing(w: Setting)
    requires ValidSetting(w) && !w.listed
    ensures Flatten(AllBindings(w)) == []
  {
    EmptyScan(w.sc);
    if w.files != [] {
      assert BodyOf("") == "";
      assert AllBindings(w)[1..] == [];
    }
  }

  lemma WholeOffset(bss: seq<seq<Binding>>, f: nat)
    requires f == |bss|
    ensures Offset(bss, f) == |Flatten(bss)|
  {
    if f > 0 {
      WholeOffset(bss[1..], f - 1);
    }
  }

  // ---- the state of assignmentFor's loops ----------------------------------------------

  ghost function Bs(w: Setting): seq<Binding> {
    Flatten(AllBindings(w))
  }

  ghost function Position(w: Setting, f: nat, i: nat): nat
    requires f <= |w.files|
  {
    Offset(AllBindings(w), f) + i
  }

  lemma AtInside(w: Setting, f: nat, i: nat)
    requires InFile(w, f, i)
    ensures Position(w, f, i) < |Bs(w)| && Bs(w)[Position(w, f, i)] == BindingsAt(w, f)[i]
  {
    hide BindingsAt, StatementsOf, Flatten, Offset, w.sc.Scan;
    FlattenAt(AllBindings(w), f, i);
  }

  lemma AtNextFile(w: Setting, f: nat)
    requires f < |w.files|
    ensures Position(w, f, |BindingsAt(w, f)|) == Position(w, f + 1, 0) <= |Bs(w)|
  {
    OffsetInside(AllBindings(w), f);
  }

  lemma AfterAll(w: Setting)
    ensures Position(w, |w.files|, 0) == |Bs(w)|
  {
    WholeOffset(AllBindings(w), |w.files|);
  }

  /** What `last` knows of the first `n` statements. */
  ghost predicate LastOf(w: Setting, name: string, n: nat, last: Option<(nat, nat)>) {
    && n <= |Bs(w)|
    && match last
       case None => TakenFromNone(w.process, Bs(w), n, name)
       case Some(p) => InFile(w, p.0, p.1) && TakenFrom(w.process, Bs(w), n, name, Position(w, p.0, p.1))
  }

  lemma TakenNext(process: set<string>, bs: seq<Binding>, n: nat, name: string)
    requires n < |bs|
    ensures bs[n].key == name && Declaring(process, bs, n) ==> TakenFrom(process, bs, n + 1, name, n)
    ensures !(bs[n].key == name && Declaring(process, bs, n)) ==>
      && (TakenFromNone(process, bs, n, name) ==> TakenFromNone(process, bs, n + 1, name))
      && (forall i: nat :: TakenFrom(process, bs, n, name, i) ==> TakenFrom(process, bs, n + 1, name, i))
  {
    hide Declaring;
  }

  lemma LastNext(w: Setting, name: string, n: nat, last: Option<(nat, nat)>, f: nat, i: nat)
    requires LastOf(w, name, n, last) && InFile(w, f, i) && n == Position(w, f, i)
    ensures n < |Bs(w)| && Bs(w)[n] == BindingsAt(w, f)[i]
    ensures LastOf(w, name, n + 1,
      if Bs(w)[n].key == name && Declaring(w.process, Bs(w), n) then Some((f, i)) else last)
  {
    hide Bs, Position, InFile, BindingsAt, Declaring, TakenFrom, TakenFromNone;
    AtInside(w, f, i);
    TakenNext(w.process, Bs(w), n, name);
  }

  /** `name` is taken from there: to be rewritten, unless it is a bare line. */
  ghost predicate TakenAt(w: Setting, name: string, f: nat, i: nat) {
    && InFile(w, f, i)
    && AssignmentOf(w, name) == if BindingsAt(w, f)[i].inherited then Refused(InheritedLine) else Done(Assigned(f, i))
  }

  lemma LastIsTaken(w: Setting, name: string, last: Option<(nat, nat)>)
    requires FirstUnreadable(w, 0).None? && LastOf(w, name, |Bs(w)|, last) && w.files != []
    ensures last.None? ==> AssignmentOf(w, name) == Done(Undeclared(|w.files| - 1))
    ensures last.Some? ==> TakenAt(w, name, last.value.0, last.value.1)
  {
    hide FirstUnreadable, BindingsAt, Bs, Position, TakenFrom, TakenFromNone, SomeTakes, TakenPlace, InFile, Takes, AssignmentOf;
    match last
    case None =>
      NothingTakes(w, name);
      UndeclaredOf(w, name);
    case Some(p) =>
      TakenHere(w, name, p.0, p.1);
  }

  lemma UndeclaredOf(w: Setting, name: string)
    requires FirstUnreadable(w, 0).None? && !SomeTakes(w, name) && w.files != []
    ensures AssignmentOf(w, name) == Done(Undeclared(|w.files| - 1))
  {
    hide FirstUnreadable, SomeTakes;
  }

  lemma TakenHere(w: Setting, name: string, f: nat, i: nat)
    requires FirstUnreadable(w, 0).None? && InFile(w, f, i) && TakenFrom(w.process, Bs(w), |Bs(w)|, name, Position(w, f, i))
    ensures TakenAt(w, name, f, i)
  {
    hide FirstUnreadable, TakenFrom, SomeTakes, TakenPlace, Takes, BindingsAt, Offset, Flatten, AllBindings;
    AtInside(w, f, i);
    ItTakes(w, name, f, i);
    TakenPlaceIs(w, name, f, i);
  }

  lemma ItTakes(w: Setting, name: string, f: nat, i: nat)
    requires InFile(w, f, i) && TakenFrom(w.process, Bs(w), |Bs(w)|, name, Position(w, f, i)) && Position(w, f, i) < |Bs(w)|
    ensures Takes(w, name, f, i)
  {
    hide TakenFrom, BindingsAt, StatementsOf, Offset, Flatten, AllBindings, InFile, w.sc.Scan;
  }

  lemma NothingTakes(w: Setting, name: string)
    requires TakenFromNone(w.process, Bs(w), |Bs(w)|, name)
    ensures !SomeTakes(w, name)
  {
    forall f, i
      ensures !Takes(w, name, f, i)
    {
    }
  }

  lemma NoneDeclares(w: Setting, name: string)
    requires ValidSetting(w) && !w.listed
    ensures FirstUnreadable(w, 0).None? && !SomeTakes(w, name)
    ensures AssignmentOf(w, name) == if w.files == [] then Refused(NoEnvFile) else Done(Undeclared(0))
  {
    assert w.files != [] ==> FirstUnreadable(w, 1).None?;
    UnlistedHoldsNothing(w);
    NothingTakes(w, name);
  }

  lemma RefusedAt(w: Setting, name: string, f: nat)
    requires f < |w.files| && (forall g :: 0 <= g < f ==> Unreadable(w, g).None?) && Unreadable(w, f).Some?
    ensures AssignmentOf(w, name) == Refused(Unreadable(w, f).value)
  {
    ReadUpTo(w, f);
  }

  // ---- the first use of a variable ------------------------------------------------------

  /** A value that uses `name`: a single-quoted one is literal and uses nothing. */
  predicate Uses(b: Binding, name: string) {
    !b.inherited && b.quote != '\'' && Refers(name, b.text)
  }

  ghost predicate UnusedBefore(w: Setting, name: string, n: nat)
    requires n <= |Bs(w)|
  {
    forall g :: 0 <= g < n ==> !Uses(Bs(w)[g], name)
  }

  datatype Use = Use(file: nat, index: nat, at: nat)

  /** The start of the line a statement's value starts on, after a byte order mark. */
  ghost predicate LineOfValue(w: Setting, u: Use) {
    && InFile(w, u.file, u.index)
    && var data := w.files[u.file].data;
       var d := |MarkOf(data)|;
       var st := StatementsOf(w, u.file)[u.index];
       && !st.inherited
       && d <= u.at <= st.valueStart + d <= |data|
       && LineStart(BodyOf(data), u.at - d)
       && '\n' !in data[u.at..st.valueStart + d]
  }

  /** The first use in load order, and the start of its line. */
  ghost predicate FirstUseIs(w: Setting, name: string, u: Use) {
    && LineOfValue(w, u)
    && Uses(BindingsAt(w, u.file)[u.index], name)
    && Position(w, u.file, u.index) <= |Bs(w)|
    && UnusedBefore(w, name, Position(w, u.file, u.index))
  }

  // ---- the variable a chain of templates leads to ------------------------------------------

  /** planVar's guard on the value. */
  predicate Writable(v: string) {
    forall i :: 0 <= i < |v| ==> v[i] >= ' ' && v[i] != 127 as char && v[i] !in "#'\"\\$ "
  }

  lemma SafeIsWritable(v: string)
    requires SafeValue(v)
    ensures Writable(v)
  {
    forall i | 0 <= i < |v|
      ensures v[i] >= ' ' && v[i] != 127 as char && v[i] !in "#'\"\\$ "
    {
      assert FileSafe(v[i]);
    }
  }

  const MAX_TEMPLATE_DEPTH := 8

  datatype Target = Target(name: string, value: string)

  /** A value that dotenv expands: it holds a `$` and is not single-quoted. */
  predicate IsTemplate(b: Binding) {
    b.quote != '\'' && '$' in b.text
  }

  datatype Step = Step(name: string, value: string, current: string)

  /** A template passes its value on, or takes a new tag; nothing else is followed. */
  function NextStep(g: Grammar, raw: string, value: string, current: string): Decision<Step> {
    match WholeVarRef(raw)
    case Some(inner) => Done(Step(inner, value, current))
    case None =>
      match TrailingTagVar(raw)
      case Some(inner) =>
        if current == "" then Refused(NotFollowed)
        else (match TagChange(g, current, value)
              case None => Refused(NotATag)
              case Some(tag) => Done(Step(inner, tag, "")))
      case None => Refused(NotFollowed)
  }

  /** The template a variable is taken from, when it is one. */
  ghost function TemplateOf(w: Setting, name: string): Option<string> {
    match AssignmentOf(w, name)
    case Done(Assigned(f, i)) =>
      if InFile(w, f, i) && IsTemplate(BindingsAt(w, f)[i]) then Some(BindingsAt(w, f)[i].text) else None
    case _ => None
  }

  /** Where planVar ends up for `name`: the variable it writes, and the value it writes there. */
  ghost function Follow(w: Setting, name: string, value: string, current: string, depth: nat): Decision<Target>
    decreases MAX_TEMPLATE_DEPTH - depth
  {
    if !Writable(value) then Refused(UnsafeValue)
    else if name in w.process then Refused(SetInProcess)
    else
      match AssignmentOf(w, name)
      case Refused(e) => Refused(e)
      case Done(_) =>
        match TemplateOf(w, name)
        case None => Done(Target(name, value))
        case Some(raw) =>
          if depth >= MAX_TEMPLATE_DEPTH then Refused(TooDeep)
          else
            match NextStep(w.grammar, raw, value, current)
            case Refused(e) => Refused(e)
            case Done(next) => Follow(w, next.name, next.value, next.current, depth + 1)
  }

  /** A value in the image alphabet stays in it along a chain, and is never refused for its bytes. */
  lemma {:induction false} FollowedIsSafe(w: Setting, name: string, value: string, current: string, depth: nat)
    requires SafeValue(value) && RefusesEmptyTags(w.grammar)
    ensures Follow(w, name, value, current, depth) != Refused(UnsafeValue)
    ensures Follow(w, name, value, current, depth).Done? ==> SafeValue(Follow(w, name, value, current, depth).value.value)
    decreases MAX_TEMPLATE_DEPTH - depth
  {
    hide Writable, SafeValue, AssignmentOf, NextStep, TemplateOf, RefusesEmptyTags;
    SafeIsWritable(value);
    AssignmentRefusals(w, name);
    if TemplateOf(w, name).Some? {
      var raw := TemplateOf(w, name).value;
      NextIsSafe(w.grammar, raw, value, current);
      if depth < MAX_TEMPLATE_DEPTH && NextStep(w.grammar, raw, value, current).Done? {
        var next := NextStep(w.grammar, raw, value, current).value;
        FollowedIsSafe(w, next.name, next.value, next.current, depth + 1);
      }
    }
  }

  lemma AssignmentRefusals(w: Setting, name: string)
    ensures AssignmentOf(w, name) != Refused(UnsafeValue)
  {
    hide SomeTakes, TakenPlace;
    UnreadableReasons(w, 0);
  }

  lemma {:induction false} UnreadableReasons(w: Setting, f: nat)
    requires f <= |w.files|
    ensures FirstUnreadable(w, f) != Some(UnsafeValue)
    decreases |w.files| - f
  {
    if f < |w.files| {
      UnreadableReasons(w, f + 1);
    }
  }

  lemma NextIsSafe(g: Grammar, raw: string, value: string, current: string)
    requires SafeValue(value) && RefusesEmptyTags(g)
    ensures NextStep(g, raw, value, current) != Refused(UnsafeValue)
    ensures NextStep(g, raw, value, current).Done? ==> SafeValue(NextStep(g, raw, value, current).value.value)
  {
    hide TagChange, SafeValue, RefusesEmptyTags, WholeVarRef, TrailingTagVar;
    if TagChange(g, current, value).Some? {
      TagIsSafe(g, current, value, TagChange(g, current, value).value);
    }
  }

  /** A variable planVar writes itself. */
  ghost predicate Written(w: Setting, name: string) {
    ValidName(name) && name !in w.process && AssignmentOf(w, name).Done? && TemplateOf(w, name).None?
  }

  lemma WrittenIsFollowed(w: Setting, name: string, value: string, current: string, depth: nat)
    requires Written(w, name) && Writable(value)
    ensures Follow(w, name, value, current, depth) == Done(Target(name, value))
  {
  }

  lemma NextIsValid(g: Grammar, raw: string, value: string, current: string)
    ensures var r := NextStep(g, raw, value, current); r.Done? ==> ValidName(r.value.name) && Refers(r.value.name, raw)
  {
    hide ValidName, TagChange;
    if NextStep(g, raw, value, current).Done? {
      FollowedIsUse(raw, NextStep(g, raw, value, current).value.name);
    }
  }

  /** A chain ends at a variable that is written itself. */
  lemma {:induction false} FollowedIsWritten(w: Setting, name: string, value: string, current: string, depth: nat)
    requires ValidName(name) && Follow(w, name, value, current, depth).Done?
    ensures var t := Follow(w, name, value, current, depth).value; Written(w, t.name) && Writable(t.value)
    decreases MAX_TEMPLATE_DEPTH - depth
  {
    hide Writable, ValidName, BindingsAt, AssignmentOf, NextStep, TemplateOf;
    if TemplateOf(w, name).Some? {
      var raw := TemplateOf(w, name).value;
      NextIsValid(w.grammar, raw, value, current);
      var next := NextStep(w.grammar, raw, value, current).value;
      FollowedIsWritten(w, next.name, next.value, next.current, depth + 1);
    }
  }

  lemma AssignedInFile(w: Setting, name: string, f: nat, i: nat)
    requires AssignmentOf(w, name) == Done(Assigned(f, i))
    ensures InFile(w, f, i) && Takes(w, name, f, i) && !BindingsAt(w, f)[i].inherited && BindingsAt(w, f)[i].key == name
    ensures FirstUnreadable(w, 0).None?
  {
    hide Takes, BindingsAt;
    assert SomeTakes(w, name);
    var g, j :| Takes(w, name, g, j);
    TakenPlaceIs(w, name, g, j);
    TakesKey(w, name, g, j);
  }

  lemma TakesKey(w: Setting, name: string, f: nat, i: nat)
    requires Takes(w, name, f, i)
    ensures InFile(w, f, i) && BindingsAt(w, f)[i].key == name
  {
    AtInside(w, f, i);
  }

  // ---- the edits of a plan --------------------------------------------------------------------

  function LineEnding(data: string): (eol: string)
    ensures eol in EOLS
  {
    if exists i :: 0 <= i < |data| - 1 && data[i] == '\r' && data[i + 1] == '\n' then "\r\n" else "\n"
  }

  /** One `\r\n` anywhere makes it the line ending of what is added. */
  lemma LineEndingIs(front: string, rest: string, plain: string)
    requires '\r' !in plain
    ensures LineEnding(front + "\r\n" + rest) == "\r\n" && LineEnding(plain) == "\n"
  {
    var data, i := front + "\r\n" + rest, |front|;
    assert 0 <= i < |data| - 1 && data[i] == '\r' && data[i + 1] == '\n';
  }

  /** What planVar sets a variable to, and the edit that does it. */
  datatype VarEdit = VarEdit(value: string, file: nat, edit: nat)

  /** What a plan holds; `changes[f][k]` is what `edits[f][k]` is for. */
  datatype Contents = Contents(edits: seq<seq<TextEdit>>, vars: map<string, VarEdit>, changes: seq<seq<Change>>)

  /** A declaration goes above the first use of its variable, or last when nothing uses it. */
  ghost predicate WellPlaced(w: Setting, f: nat, at: nat, name: string)
    requires f < |w.files|
  {
    || (exists u :: FirstUseIs(w, name, u) && u.file == f && u.at == at + |MarkOf(w.files[f].data)|)
    || (UnusedBefore(w, name, |Bs(w)|) && f == |w.files| - 1 && at == |BodyOf(w.files[f].data)|)
  }

  /** A file with bytes, and no line break at its end. */
  predicate Unterminated(data: string) {
    data != "" && data[|data| - 1] != '\n'
  }

  /** A line start of the file outside every quoted value. */
  ghost predicate Clean(w: Setting, f: nat, at: nat)
    requires f < |w.files|
  {
    && at <= |BodyOf(w.files[f].data)| && LineStart(BodyOf(w.files[f].data), at)
    && forall i :: 0 <= i < |StatementsOf(w, f)| ==> !Spans(StatementsOf(w, f)[i], at)
  }

  /** An append to this file needs a line break of its own. */
  predicate Glues(data: string, edits: seq<TextEdit>) {
    Unterminated(data) && !(exists k :: 0 <= k < |edits| && edits[k].start == |data|)
  }

  /** The line break before an append planned after `edits`. */
  predicate LeadRight(data: string, edits: seq<TextEdit>, c: Change) {
    IsAppend(BodyOf(data), c) ==> c.lead == if Glues(data, edits) then LineEnding(data) else ""
  }

  predicate AllLeadsRight(data: string, edits: seq<TextEdit>, cs: seq<Change>) {
    |edits| == |cs| && forall k :: 0 <= k < |cs| ==> LeadRight(data, edits[..k], cs[k])
  }

  /** The statement a declaration at `at` precedes: none, when it is appended. */
  ghost function IndexAt(w: Setting, f: nat, at: nat): nat
    requires f < |w.files|
  {
    if at == |BodyOf(w.files[f].data)| then |StatementsOf(w, f)|
    else if Clean(w, f, at) then Slot(w.sc, BodyOf(w.files[f].data), at)
    else 0
  }

  predicate Editable(st: Statement, body: string) {
    !st.inherited && st.key != "" && 0 <= st.valueStart <= st.valueEnd <= |body|
  }

  ghost predicate FitsSet(w: Setting, f: nat, e: TextEdit, c: Change)
    requires f < |w.files| && c.SetValue?
  {
    && c.index < |StatementsOf(w, f)|
    && Editable(StatementsOf(w, f)[c.index], BodyOf(w.files[f].data))
    && e == ShiftEdit(EditOf(StatementsOf(w, f), c), |MarkOf(w.files[f].data)|)
  }

  ghost predicate FitsDeclare(w: Setting, f: nat, e: TextEdit, c: Change)
    requires f < |w.files| && c.Declare?
  {
    var data := w.files[f].data;
    var body := BodyOf(data);
    && c.at <= |body| && c.eol == LineEnding(data) && ValidName(c.name)
    && e.start == e.end == c.at + |MarkOf(data)| && e.owners == c.owners
    && e.text == c.lead + DeclarationLine(c.name, c.value, c.eol)
    && (c.lead == "" || (c.lead == c.eol && IsAppend(body, c)))
    && c.index == IndexAt(w, f, c.at) <= |StatementsOf(w, f)|
    && WellPlaced(w, f, c.at, c.name)
  }

  /** `e` is the edit of `c`, and `c` takes effect. */
  ghost predicate Fits(w: Setting, f: nat, e: TextEdit, c: Change) {
    && f < |w.files|
    && (if c.SetValue? then FitsSet(w, f, e, c) else FitsDeclare(w, f, e, c))
    && Effective(w.process, Bs(w), ShiftChange(c, Position(w, f, 0)))
    && c.owners != []
  }

  /** The `k`-th edit of file `f` is what its variable is recorded with. */
  ghost predicate Recorded(w: Setting, vars: map<string, VarEdit>, f: nat, k: nat, e: TextEdit, c: Change)
    requires f < |w.files|
  {
    var name := TargetOf(BindingsAt(w, f), c);
    name in vars && vars[name] == VarEdit(c.value, f, k) && Fits(w, f, e, c)
  }

  ghost predicate HasEdit(w: Setting, p: Contents, name: string)
    requires name in p.vars
  {
    var v := p.vars[name];
    && v.file < |p.changes| && v.file < |w.files| && v.edit < |p.changes[v.file]|
    && TargetOf(BindingsAt(w, v.file), p.changes[v.file][v.edit]) == name
    && Written(w, name) && Writable(v.value)
  }

  ghost predicate SameShape(w: Setting, p: Contents) {
    && |p.edits| == |p.changes| == |w.files|
    && (forall f :: 0 <= f < |w.files| ==> |p.changes[f]| == |p.edits[f]| && NoOverlap(p.edits[f]))
    && (forall f :: 0 <= f < |w.files| ==> AllLeadsRight(w.files[f].data, p.edits[f], p.changes[f]))
  }

  /** What every step of planning keeps: one edit a variable, and each edit the one its variable needs. */
  ghost predicate PlanInvariant(w: Setting, p: Contents) {
    && SameShape(w, p)
    && (forall f, k :: 0 <= f < |p.changes| && 0 <= k < |p.changes[f]| ==>
          Recorded(w, p.vars, f, k, p.edits[f][k], p.changes[f][k]))
    && (forall name :: name in p.vars ==> HasEdit(w, p, name))
  }

  function EmptyPlan(w: Setting): Contents {
    Contents(seq(|w.files|, _ => []), map[], seq(|w.files|, _ => []))
  }

  /** One more edit, for a variable the plan did not set. */
  function Extended(p: Contents, f: nat, e: TextEdit, c: Change, name: string): Contents
    requires f < |p.edits| == |p.changes|
  {
    Contents(p.edits[f := p.edits[f] + [e]], p.vars[name := VarEdit(c.value, f, |p.edits[f]|)],
             p.changes[f := p.changes[f] + [c]])
  }

  /** One more service that needs a variable's edit. */
  function Shared(p: Contents, name: string, svc: string): Contents
    requires name in p.vars && p.vars[name].file < |p.edits| == |p.changes|
    requires p.vars[name].edit < |p.edits[p.vars[name].file]| == |p.changes[p.vars[name].file]|
  {
    var f, k := p.vars[name].file, p.vars[name].edit;
    var e, c := p.edits[f][k], p.changes[f][k];
    p.(edits := p.edits[f := p.edits[f][k := e.(owners := e.owners + [svc])]],
       changes := p.changes[f := p.changes[f][k := c.(owners := c.owners + [svc])]])
  }
}
