/** Concrete definitions, files and runs at which a property of the routing path
    fails, each with everything else in order. */
module Counterexamples {
  import opened Prelude
  import opened Text
  import Forest
  import opened Directory
  import opened StageGraph
  import opened Projection
  import Router
  import Registry

  // ---------------------------------------------------------------------
  // One shape of workflow: a first stage leads to a last one and to another
  // ---------------------------------------------------------------------

  datatype Names = Names(
    first: string, last: string, other: string, toLast: string, toOther: string, target: string, skill: string)

  predicate Plain(s: string) {
    s != "" && !IsSpace(s[0]) && !IsSpace(s[|s| - 1])
  }

  predicate NamesOk(n: Names) {
    && !Blank(n.first) && Plain(n.last) && !Blank(n.other) && Plain(n.toLast) && Plain(n.toOther) && Plain(n.target)
    && Plain(n.skill)
    && n.first != n.last && n.first != n.other && n.last != n.other && n.toLast != n.toOther
    && VariableName(n.target).Some? && n.target != "{{any}}" && |n.target| > 8
  }

  function Decisions(n: Names): Fields {
    [(n.toOther, Str(n.other)), (n.toLast, Str(n.last))]
  }

  function FirstStage(n: Names): Fields {
    [("target", Str(n.target)), ("required_skill", Str(n.skill)), ("decisions", Obj(Decisions(n)))]
  }

  /** A terminal stage without a holder may name a skill all the same. */
  function LastStage(skill: Option<string>): Fields {
    [("is_terminal", Bool(true)), ("required_skill", if skill.Some? then Str(skill.value) else Null)]
  }

  function Stages(n: Names, skill: Option<string>): Fields {
    [(n.first, Obj(FirstStage(n))), (n.last, Obj(LastStage(skill))), (n.other, Obj(LastStage(None)))]
  }

  function Graph(n: Names, skill: Option<string>): Fields {
    [("start_stage", Str(n.first)), ("end_stage", Str(n.last)), ("stages", Obj(Stages(n, skill)))]
  }

  lemma GetStages(n: Names, skill: Option<string>)
    requires NamesOk(n)
    ensures var s := Stages(n, skill);
            && UniqueKeys(s) && HasKey(s, n.first) && HasKey(s, n.last) && HasKey(s, n.other)
            && Get(s, n.first) == Obj(FirstStage(n)) && Get(s, n.last) == Obj(LastStage(skill))
            && Get(s, n.other) == Obj(LastStage(None))
  {
    var s := Stages(n, skill);
    forall i: nat | i < 3 ensures HasKey(s, s[i].0) && Get(s, s[i].0) == s[i].1 {
      HasKeyAt(s, i);
      GetAt(s, i);
    }
    assert s[0].0 == n.first && s[1].0 == n.last && s[2].0 == n.other;
  }

  lemma Absent(fields: Fields, key: string)
    requires forall i :: 0 <= i < |fields| ==> fields[i].0 != key
    ensures Get(fields, key) == Null
  {
    KeyAbsent(fields, key);
    GetMissing(fields, key);
  }

  lemma GetGraph(n: Names, skill: Option<string>)
    ensures var g := Graph(n, skill);
            && UniqueKeys(g) && Get(g, "start_stage") == Str(n.first) && Get(g, "end_stage") == Str(n.last)
            && Get(g, "stages") == Obj(Stages(n, skill))
            && Get(g, "form_type") == Null && Get(g, "initiator_allowlist") == Null
  {
    var g := Graph(n, skill);
    assert |g[0].0| == 11 && |g[1].0| == 9 && |g[2].0| == 6;
    forall i: nat | i < 3 ensures Get(g, g[i].0) == g[i].1 {
      GetAt(g, i);
    }
    assert g[0].0 == "start_stage" && g[1].0 == "end_stage" && g[2].0 == "stages";
    Absent(g, "initiator_allowlist");
    assert g[1].0[0] == 'e';
    Absent(g, "form_type");
  }

  lemma GetFirst(n: Names)
    ensures var p := FirstStage(n);
            && Get(p, "target") == Str(n.target) && Get(p, "required_skill") == Str(n.skill)
            && Get(p, "decisions") == Obj(Decisions(n)) && Get(p, "is_terminal") == Null
            && Get(p, "transitions") == Null && StageDecisions(p) == Obj(Decisions(n))
  {
    var p := FirstStage(n);
    assert |p[0].0| == 6 && |p[1].0| == 14 && |p[2].0| == 9;
    forall i: nat | i < 3 ensures Get(p, p[i].0) == p[i].1 {
      GetAt(p, i);
    }
    assert p[0].0 == "target" && p[1].0 == "required_skill" && p[2].0 == "decisions";
    Absent(p, "is_terminal");
    Absent(p, "transitions");
  }

  lemma GetLast(skill: Option<string>)
    ensures var p := LastStage(skill);
            && Get(p, "is_terminal") == Bool(true) && Get(p, "target") == Null && StageDecisions(p) == Null
            && Get(p, "required_skill") == if skill.Some? then Str(skill.value) else Null
  {
    var p := LastStage(skill);
    assert |p[0].0| == 11 && p[0].0[0] == 'i' && |p[1].0| == 14;
    GetAt(p, 0);
    GetAt(p, 1);
    assert p[0].0 == "is_terminal" && p[1].0 == "required_skill";
    Absent(p, "target");
    Absent(p, "decisions");
    Absent(p, "transitions");
  }

  lemma PlainStrip(s: string)
    requires Plain(s)
    ensures Strip(s) == s && !Blank(s) && Strip(s + " ") == s && !Blank(s + " ") && !Trimmed(s + " ")
  {
    StripTrimmed(s);
    var longer := s + " ";
    assert TrimLeft(longer, IsSpace) == longer;
    assert longer[..|longer| - 1] == s && IsSpace(longer[|longer| - 1]);
    assert TrimRight(longer, IsSpace) == TrimRight(s, IsSpace);
    assert TrimLeft(s, IsSpace) == s;
  }

  lemma StepsOfFirst(n: Names)
    requires NamesOk(n)
    ensures StageSteps(Obj(FirstStage(n))) == [(n.toOther, n.other), (n.toLast, n.last)]
  {
    GetFirst(n);
    PlainStrip(n.toOther);
    PlainStrip(n.toLast);
    PlainStrip(n.last);
    assert Decisions(n)[1..] == [(n.toLast, Str(n.last))] && Decisions(n)[1..][1..] == [];
    assert UsableEntries(Decisions(n)[1..]) == [(n.toLast, n.last)];
  }

  // ---------------------------------------------------------------------
  // The validator accepts it
  // ---------------------------------------------------------------------

  /** One node; the skill of the first stage and the one the last stage may name
      are found under the form type. */
  function OneNode(sender: Forest.Node, typeKey: string, n: Names, skill: string): Site {
    Site([sender], {(typeKey, n.skill), (typeKey, skill)})
  }

  lemma NotNone(target: string)
    requires |target| > 8
    ensures !IsNoneWord(target)
  {
    assert |"none"| == 4 && |"null"| == 4 && |"{{none}}"| == 8;
  }

  lemma FirstEntriesOk(n: Names, skill: Option<string>)
    requires NamesOk(n)
    ensures EntriesOk(Stages(n, skill), Decisions(n))
  {
    GetStages(n, skill);
    PlainStrip(n.toOther);
    PlainStrip(n.toLast);
    PlainStrip(n.last);
    StrippedKeysAt(Decisions(n));
    assert Decisions(n)[0] == (n.toOther, Str(n.other)) && Decisions(n)[1] == (n.toLast, Str(n.last));
  }

  lemma FirstOk(w: World, n: Names, skill: Option<string>)
    requires NamesOk(n) && n.skill in w.skills
    ensures StageOk(w, Stages(n, skill), (n.first, Obj(FirstStage(n))))
  {
    GetFirst(n);
    FirstEntriesOk(n, skill);
    PlainStrip(n.target);
    PlainStrip(n.skill);
    NotNone(n.target);
  }

  lemma LastOk(w: World, n: Names, skill: Option<string>, own: Option<string>, name: string)
    requires !Blank(name) && (own.Some? ==> Plain(own.value) && own.value in w.skills)
    ensures StageOk(w, Stages(n, skill), (name, Obj(LastStage(own))))
  {
    GetLast(own);
    if own.Some? { PlainStrip(own.value); }
  }

  lemma ReachesFromFirst(n: Names, skill: Option<string>, name: string)
    requires NamesOk(n) && name in [n.first, n.last, n.other]
    ensures Reaches(Stages(n, skill), n.first, name)
  {
    var s := Stages(n, skill);
    GetStages(n, skill);
    StepsOfFirst(n);
    var path := if name == n.first then [n.first] else [n.first, name];
    assert StageSteps(Get(s, n.first))[1].1 == n.last && StageSteps(Get(s, n.first))[0].1 == n.other;
    assert StagePath(s, path);
  }

  lemma StagesOk(w: World, n: Names, skill: Option<string>)
    requires NamesOk(n) && n.skill in w.skills
    requires skill.Some? ==> Plain(skill.value) && skill.value in w.skills
    ensures var s := Stages(n, skill);
            forall i :: 0 <= i < |s| ==> StageOk(w, s, s[i]) && Reaches(s, n.first, s[i].0)
  {
    var s := Stages(n, skill);
    forall i | 0 <= i < |s| ensures StageOk(w, s, s[i]) && Reaches(s, n.first, s[i].0) {
      assert s[i].0 in [n.first, n.last, n.other];
      ReachesFromFirst(n, skill, s[i].0);
      OneStageOk(w, n, skill, i);
    }
  }

  lemma OneStageOk(w: World, n: Names, skill: Option<string>, i: nat)
    requires NamesOk(n) && n.skill in w.skills && i < 3
    requires skill.Some? ==> Plain(skill.value) && skill.value in w.skills
    ensures StageOk(w, Stages(n, skill), Stages(n, skill)[i])
  {
    if i == 0 {
      FirstOk(w, n, skill);
    } else if i == 1 {
      PlainStrip(n.last);
      LastOk(w, n, skill, skill, n.last);
    } else {
      LastOk(w, n, skill, None, n.other);
    }
  }

  lemma ValidFrom(w: World, typeKey: string, graph: Fields, stages: Fields, first: string, last: string)
    requires Get(graph, "form_type") == Null && Get(graph, "initiator_allowlist") == Null
    requires Get(graph, "start_stage") == Str(first) && Get(graph, "end_stage") == Str(last)
    requires Get(graph, "stages") == Obj(stages) && stages != []
    requires DefinedStage(stages, Str(first)) && DefinedStage(stages, Str(last)) && StageSteps(Get(stages, last)) == []
    requires forall i :: 0 <= i < |stages| ==> StageOk(w, stages, stages[i]) && Reaches(stages, first, stages[i].0)
    ensures ValidStageGraph(w, typeKey, graph)
  {
  }

  lemma GraphIsValid(w: World, typeKey: string, n: Names, skill: Option<string>)
    requires NamesOk(n) && n.skill in w.skills
    requires skill.Some? ==> Plain(skill.value) && skill.value in w.skills
    ensures ValidStageGraph(w, typeKey, Graph(n, skill))
  {
    GetGraph(n, skill);
    GetStages(n, skill);
    GetLast(skill);
    PlainStrip(n.last);
    StagesOk(w, n, skill);
    ValidFrom(w, typeKey, Graph(n, skill), Stages(n, skill), n.first, n.last);
  }

  // ---------------------------------------------------------------------
  // The router takes a new form along it
  // ---------------------------------------------------------------------

  /** A new form of a type, and the decision its sender takes. */
  function FileOf(typeKey: string, decision: string): Router.Frontmatter {
    map["form_type" := typeKey, "decision" := decision]
  }

  lemma FileReads(typeKey: string, decision: string)
    requires Plain(typeKey) && Plain(decision)
    ensures var fm := FileOf(typeKey, decision);
            && Router.FormTypeOf(fm) == Some(typeKey) && Router.DecisionKey(fm) == Some(decision)
            && Router.OptionalStr(fm, "stage") == None && Router.OptionalStr(fm, "form_id") == None
            && Router.OptionalStr(fm, "initiator_node_id") == None && Router.OptionalStr(fm, "initiator") == None
  {
    var fm := FileOf(typeKey, decision);
    PlainStrip(typeKey);
    PlainStrip(decision);
    assert |"form_type"| == 9 && |"decision"| == 8 && |"stage"| == 5 && |"form_id"| == 7;
    assert |"initiator_node_id"| == 17 && |"initiator"| == 9 && "initiator"[0] != "form_type"[0];
    assert fm["form_type"] == typeKey && fm["decision"] == decision;
  }

  lemma LoadsAs(n: Names, skill: Option<string>)
    requires NamesOk(n)
    ensures Router.LoadStageGraph(Obj(Graph(n, skill)))
         == Ok(Router.Loaded(Strip(n.first), n.last, Stages(n, skill), Null))
  {
    GetGraph(n, skill);
    PlainStrip(n.last);
  }

  lemma RawStepOf(n: Names, skill: Option<string>, key: string)
    requires NamesOk(n) && key in [n.toOther, n.toLast]
    ensures Router.RawStep(Stages(n, skill), n.first, key) == Some(if key == n.toOther then n.other else n.last)
  {
    var entries := Decisions(n);
    GetStages(n, skill);
    GetFirst(n);
    PlainStrip(n.last);
    assert UniqueKeys(entries) && entries[0] == (n.toOther, Str(n.other)) && entries[1] == (n.toLast, Str(n.last));
    GetAt(entries, 0);
    GetAt(entries, 1);
  }

  /** One version of one type, active; one node; no forms yet. */
  function StoreOf(site: Site, typeKey: string, version: string, graph: Fields): Router.Store {
    Router.Store(site, map[typeKey := version], map[(typeKey, version) := Obj(graph)], map[])
  }

  lemma StepsToLast(site: Site, sender: Forest.Node, typeKey: string, version: string, n: Names, skill: Option<string>,
                    key: string)
    requires NamesOk(n) && Plain(n.first) && Plain(typeKey) && key in [n.toOther, n.toLast]
    requires key == n.toOther ==> Strip(n.other) == n.last
    ensures var g := Router.Loaded(n.first, n.last, Stages(n, skill), Null);
            Router.RouteFile(StoreOf(site, typeKey, version, Graph(n, skill)), FileOf(typeKey, key), sender)
            == Router.RouteStep(StoreOf(site, typeKey, version, Graph(n, skill)), FileOf(typeKey, key), sender, g,
                                typeKey, version, n.first, key, if key == n.toOther then n.other else n.last)
  {
    FileReads(typeKey, key);
    LoadsAs(n, skill);
    RawStepOf(n, skill, key);
    GetStages(n, skill);
    PlainStrip(n.first);
    PlainStrip(n.last);
  }

  /** A new form's step into a stage without a target. */
  lemma NewFormStep(s: Router.Store, fm: Router.Frontmatter, sender: Forest.Node, g: Router.Loaded, typeKey: string,
                    version: string, key: string, raw: string)
    requires Router.OptionalStr(fm, "form_id") == None && Router.OptionalStr(fm, "initiator_node_id") == None
    requires Router.OptionalStr(fm, "initiator") == None && g.allowlist == Null
    requires Router.CheckSkill(WorldOf(s.site, typeKey), Get(g.stages, Strip(raw))).Ok?
    requires StageTarget(g.stages, Strip(raw)) == Null
    ensures Router.RouteStep(s, fm, sender, g, typeKey, version, g.start, key, raw)
         == Ok(Router.Route(Router.NewForm(typeKey, version, g.start, sender), g.start, key, raw, Strip(raw), None,
                            Router.Context(sender.id, Router.Delivery(None, map[]))))
  {
  }

  lemma NoSkillNeeded(w: World)
    ensures Router.CheckSkill(w, Obj(LastStage(None))).Ok?
  {
    GetLast(None);
  }

  /** Into a last stage without a skill the form is routed, to nobody. */
  lemma RoutedToLast(site: Site, sender: Forest.Node, typeKey: string, version: string, n: Names, key: string)
    requires NamesOk(n) && Plain(n.first) && Plain(typeKey) && key in [n.toOther, n.toLast]
    requires key == n.toOther ==> Strip(n.other) == n.last
    ensures var s, fm := StoreOf(site, typeKey, version, Graph(n, None)), FileOf(typeKey, key);
            && Router.RouteFile(s, fm, sender).Ok?
            && var r := Router.RouteFile(s, fm, sender).value;
               && r.form == Router.NewForm(typeKey, version, n.first, sender)
               && r.rawNext == (if key == n.toOther then n.other else n.last)
               && r.decision == key && r.stage == n.first
  {
    StepsToLast(site, sender, typeKey, version, n, None, key);
    FileReads(typeKey, key);
    GetStages(n, None);
    GetLast(None);
    NoSkillNeeded(WorldOf(site, typeKey));
    PlainStrip(n.last);
    NewFormStep(StoreOf(site, typeKey, version, Graph(n, None)), FileOf(typeKey, key), sender,
                Router.Loaded(n.first, n.last, Stages(n, None), Null), typeKey, version, key,
                if key == n.toOther then n.other else n.last);
  }

  lemma {:induction false} WithoutAbsent(fields: Fields, key: string)
    requires forall i :: 0 <= i < |fields| ==> fields[i].0 != key
    ensures Without(fields, key) == fields
  {
    if fields != [] {
      WithoutAbsent(fields[1..], key);
      assert [fields[0]] + fields[1..] == fields;
    }
  }

  lemma NormalizedAlready(n: Names, skill: Option<string>)
    ensures Registry.NormalizeGraph(Graph(n, skill)) == Graph(n, skill)
  {
    var s := Stages(n, skill);
    StageNormalized(n, skill);
    StageNormalized(n, None);
    assert s[2..] == [s[2]] && s[1..] == [s[1]] + s[2..] && s == [s[0]] + s[1..] && s[3..] == [];
    assert NormalizeStages(s[2..]) == s[2..];
    assert NormalizeStages(s[1..]) == s[1..];
    GetGraph(n, skill);
    PutSame(Graph(n, skill), "stages", Obj(s));
  }

  lemma StageNormalized(n: Names, skill: Option<string>)
    ensures NormalizeStage(FirstStage(n)) == FirstStage(n) && NormalizeStage(LastStage(skill)) == LastStage(skill)
  {
    var first, last := FirstStage(n), LastStage(skill);
    GetFirst(n);
    GetLast(skill);
    PutSame(first, "decisions", Obj(Decisions(n)));
    assert |"transitions"| == 11 && "transitions"[0] == 't' && "is_terminal"[0] == 'i';
    assert |first[0].0| == 6 && |first[1].0| == 14 && |first[2].0| == 9 && |last[1].0| == 14;
    WithoutAbsent(first, "transitions");
    WithoutAbsent(last, "transitions");
  }

  /** The registry after this definition was stored as active. */
  lemma StoredActive(c: Registry.Checks, key: Registry.Key, graph: Fields)
    requires Registry.NormalizeGraph(graph) == graph && Registry.Accepts(c, key.0, graph) && Registry.TypeKeyOk(key.0)
    ensures Registry.Run(map[], [Registry.Step(c, Registry.Upsert(key, Registry.Active, graph, true))])
         == map[key := Registry.Definition(Registry.Active, graph, false)]
  {
    var step := Registry.Step(c, Registry.Upsert(key, Registry.Active, graph, true));
    var defs := map[key := Registry.Definition(Registry.Active, graph, false)];
    assert Registry.Upserted(c, map[], key, Registry.Active, graph, true) == defs;
    assert [step][1..] == [];
    assert Registry.Run(defs, []) == defs;
  }

  /** A registry in which the definition was accepted and that the store shows. */
  lemma Installed(site: Site, typeKey: string, version: string, n: Names) returns (steps: seq<Registry.Step>)
    requires NamesOk(n) && Registry.TypeKeyOk(typeKey) && (typeKey, n.skill) in site.skills
    ensures Registry.ReadsFrom(StoreOf(site, typeKey, version, Graph(n, None)), Registry.Run(map[], steps))
    ensures forall i :: 0 <= i < |steps| ==> Registry.WellKeyedAction(steps[i].action)
  {
    var graph := Graph(n, None);
    GraphIsValid(WorldOf(site, typeKey), typeKey, n, None);
    GetGraph(n, None);
    GetStages(n, None);
    NormalizedAlready(n, None);
    steps := InstalledSteps(Registry.Checks(site, {}), typeKey, version, graph);
  }

  lemma InstalledSteps(c: Registry.Checks, typeKey: string, version: string, graph: Fields)
    returns (steps: seq<Registry.Step>)
    requires Registry.NormalizeGraph(graph) == graph && Registry.WellKeyed(graph)
    requires Registry.Accepts(c, typeKey, graph) && Registry.TypeKeyOk(typeKey)
    ensures Registry.ReadsFrom(StoreOf(c.site, typeKey, version, graph), Registry.Run(map[], steps))
    ensures forall i :: 0 <= i < |steps| ==> Registry.WellKeyedAction(steps[i].action)
  {
    steps := [Registry.Step(c, Registry.Upsert((typeKey, version), Registry.Active, graph, true))];
    StoredActive(c, (typeKey, version), graph);
  }

  /** The two routed files: over the definition's trimmed entry router and ledger
      agree, over the other they do not. */
  lemma AgreesOnOneEntry(site: Site, sender: Forest.Node, typeKey: string, version: string, n: Names, key: string)
    requires NamesOk(n) && Plain(n.first) && Plain(typeKey) && version != "" && key in [n.toOther, n.toLast]
    requires Strip(n.other) == n.last && ValidDirectory(site.dir) && sender in site.dir
    requires ValidStageGraph(WorldOf(site, typeKey), typeKey, Graph(n, None))
    ensures var s, fm := StoreOf(site, typeKey, version, Graph(n, None)), FileOf(typeKey, key);
            && Router.RouteFile(s, fm, sender).Ok?
            && Router.BoundToActive(s, fm, Router.RouteFile(s, fm, sender).value.form)
            && (Router.LedgerAgrees(s, sender, Router.RouteFile(s, fm, sender).value) <==> key == n.toLast)
  {
    var s, fm := StoreOf(site, typeKey, version, Graph(n, None)), FileOf(typeKey, key);
    RoutedToLast(site, sender, typeKey, version, n, key);
    FileReads(typeKey, key);
    GetGraph(n, None);
    GetStages(n, None);
    ValidIsSound(WorldOf(site, typeKey), typeKey, Graph(n, None));
    assert Router.BoundStages(s, Router.RouteFile(s, fm, sender).value.form) == Stages(n, None);
    Router.AgreeOnAcceptedIff(s, fm, sender);
    PlainStrip(n.last);
    StripTrimmed(n.last);
    StripTrimmed(n.other);
  }

  // ---------------------------------------------------------------------
  // The inputs
  // ---------------------------------------------------------------------

  lemma SomeNode() returns (node: Forest.Node)
    ensures LooksLikeUuid(node.id)
  {
    node := Forest.Node(seq(36, i => if i in {8, 13, 18, 23} then '-' else '0'), "n", Forest.Human, false);
  }

  lemma Letter(c: char) returns (s: string)
    requires 'A' <= c <= 'z'
    ensures Plain(s) && s == [c]
  {
    s := [c];
  }

  lemma SomeTarget() returns (target: string)
    ensures VariableName(target).Some? && target != "{{any}}" && |target| > 8 && Plain(target)
  {
    target := "{{initiator}}";
    NamedVariable(target);
  }

  lemma BlankInFront(s: string)
    requires Plain(s)
    ensures Strip(" " + s) == s && !Blank(" " + s) && !Trimmed(" " + s)
  {
    PlainStrip(s);
    assert (" " + s)[1..] == s;
  }

  /** The first stage is "A" or " A", the third "C" or "B ". */
  lemma SomeNames(front: bool, blank: bool) returns (n: Names, typeKey: string, version: string)
    ensures NamesOk(n) && if blank then Strip(n.other) == n.last else Plain(n.other)
    ensures if front then Strip(n.first) !in [n.first, n.last, n.other] else Plain(n.first)
    ensures Plain(typeKey) && Registry.TypeKeyOk(typeKey) && typeKey != "message" && version != ""
  {
    var plain := Letter('A');
    var last := Letter('B');
    var third := Letter('C');
    var toLast := Letter('s');
    var toOther := Letter('g');
    var skill := Letter('k');
    var target := SomeTarget();
    PlainStrip(plain);
    PlainStrip(last);
    PlainStrip(third);
    BlankInFront(plain);
    var first := if front then " " + plain else plain;
    assert |first| == 2 <==> front;
    n := Names(first, last, if blank then last + " " else third, toLast, toOther, target, skill);
    typeKey := Letter('t');
    version := "1";
    assert |"message"| == 7 && |typeKey| == 1;
  }

  lemma NamedVariable(target: string)
    requires target == "{{initiator}}"
    ensures VariableName(target).Some? && target != "{{any}}" && |target| > 8 && Plain(target)
  {
    assert target[..2] == "{{" && target[11..] == "}}";
    assert |"{{any}}"| == 7;
  }

  /** A definition the registry accepts and a file the router delivers on which
      router and ledger part: the stage's entry leads to "B " where the router
      enters "B". By its other entry the same definition keeps them together. */
  lemma RouterAndLedgerDisagree() returns (steps: seq<Registry.Step>, s: Router.Store, sender: Forest.Node,
                                           fm: Router.Frontmatter, other: Router.Frontmatter)
    ensures Registry.ReadsFrom(s, Registry.Run(map[], steps))
    ensures forall i :: 0 <= i < |steps| ==> Registry.WellKeyedAction(steps[i].action)
    ensures ValidDirectory(s.site.dir) && sender in s.site.dir
    ensures Router.RouteFile(s, fm, sender).Ok?
         && Router.BoundToActive(s, fm, Router.RouteFile(s, fm, sender).value.form)
         && !Router.LedgerAgrees(s, sender, Router.RouteFile(s, fm, sender).value)
    ensures Router.RouteFile(s, other, sender).Ok?
         && Router.BoundToActive(s, other, Router.RouteFile(s, other, sender).value.form)
         && Router.LedgerAgrees(s, sender, Router.RouteFile(s, other, sender).value)
  {
    var n, typeKey, version := SomeNames(false, true);
    var graph := Graph(n, None);
    sender := SomeNode();
    var site := OneNode(sender, typeKey, n, n.skill);
    steps := Installed(site, typeKey, version, n);
    GraphIsValid(WorldOf(site, typeKey), typeKey, n, None);
    s, fm, other := StoreOf(site, typeKey, version, graph), FileOf(typeKey, n.toOther), FileOf(typeKey, n.toLast);
    AgreesOnOneEntry(site, sender, typeKey, version, n, n.toOther);
    AgreesOnOneEntry(site, sender, typeKey, version, n, n.toLast);
  }

  lemma UnsafeName(skill: string)
    requires skill == "../s"
    ensures Plain(skill) && !Router.SafeSkillName(skill)
  {
    assert skill[2] == '/' && skill[1..][1..] == skill[2..];
    assert SplitOn(skill[2..], '/')[0] == "";
    assert SplitOn(skill[1..], '/')[0] == ['.'];
    assert SplitOn(skill, '/')[0] == "..";
  }

  lemma AllTrimmed(n: Names, skill: Option<string>, name: string)
    requires NamesOk(n) && Plain(n.other) && HasKey(Stages(n, skill), name)
    ensures Router.TrimmedStage(Stages(n, skill), name) && (Plain(n.first) ==> Trimmed(name))
  {
    GetStages(n, skill);
    StepsOfFirst(n);
    GetLast(skill);
    GetLast(None);
    var k := KeyIndex(Stages(n, skill), name);
    assert name in [n.first, n.last, n.other];
  }

  lemma SkillRefused(w: World, skill: string)
    requires Plain(skill) && !Router.SafeSkillName(skill)
    ensures Router.CheckSkill(w, Obj(LastStage(Some(skill)))) == Err(Router.SkillUnsafe)
  {
    GetLast(Some(skill));
    PlainStrip(skill);
  }

  lemma RefusedAtLast(site: Site, sender: Forest.Node, typeKey: string, version: string, n: Names, skill: string)
    requires NamesOk(n) && Plain(n.first) && Plain(typeKey) && Plain(skill) && !Router.SafeSkillName(skill)
    ensures var s := StoreOf(site, typeKey, version, Graph(n, Some(skill)));
            Router.RouteFile(s, FileOf(typeKey, n.toLast), sender) == Err(Router.SkillUnsafe)
  {
    StepsToLast(site, sender, typeKey, version, n, Some(skill), n.toLast);
    GetStages(n, Some(skill));
    SkillRefused(WorldOf(site, typeKey), skill);
    PlainStrip(n.last);
  }

  /** A definition the validator accepts, with the names of all stages, decisions
      and next stages trimmed and every skill file in place, into whose last stage
      no file is ever routed: the stage names the skill "../s". */
  lemma AcceptedButNeverRouted() returns (s: Router.Store, sender: Forest.Node, fm: Router.Frontmatter,
                                          typeKey: string, graph: Fields)
    ensures Router.FormTypeOf(fm) == Some(typeKey) && typeKey in s.active
    ensures (typeKey, s.active[typeKey]) in s.graphs && s.graphs[(typeKey, s.active[typeKey])] == Obj(graph)
    ensures ValidStageGraph(WorldOf(s.site, typeKey), typeKey, graph) && UniqueKeys(Get(graph, "stages").fields)
    ensures forall name :: HasKey(Get(graph, "stages").fields, name) ==>
              Trimmed(name) && Router.TrimmedStage(Get(graph, "stages").fields, name)
    ensures Router.RouteFile(s, fm, sender) == Err(Router.SkillUnsafe)
  {
    var n, t, version := SomeNames(false, false);
    var skill := Some("../s");
    sender := SomeNode();
    UnsafeName(skill.value);
    typeKey, graph := t, Graph(n, skill);
    var site := OneNode(sender, typeKey, n, skill.value);
    GraphIsValid(WorldOf(site, typeKey), typeKey, n, skill);
    GetGraph(n, skill);
    GetStages(n, skill);
    forall name | HasKey(Stages(n, skill), name) ensures Trimmed(name) && Router.TrimmedStage(Stages(n, skill), name) {
      AllTrimmed(n, skill, name);
    }
    s, fm := StoreOf(site, typeKey, version, graph), FileOf(typeKey, n.toLast);
    FileReads(typeKey, n.toLast);
    RefusedAtLast(site, sender, typeKey, version, n, skill.value);
  }

  /** A definition the validator accepts of which no form can ever begin: its start
      stage is named " A", and the router looks for "A". */
  lemma AcceptedButNeverStarted() returns (s: Router.Store, sender: Forest.Node, typeKey: string, graph: Fields)
    ensures typeKey in s.active && Trimmed(typeKey) && typeKey != ""
    ensures (typeKey, s.active[typeKey]) in s.graphs && s.graphs[(typeKey, s.active[typeKey])] == Obj(graph)
    ensures ValidStageGraph(WorldOf(s.site, typeKey), typeKey, graph) && UniqueKeys(Get(graph, "stages").fields)
    ensures forall name :: HasKey(Get(graph, "stages").fields, name) ==>
              Router.TrimmedStage(Get(graph, "stages").fields, name)
    ensures forall fm :: Router.FormTypeOf(fm) == Some(typeKey) && Router.OptionalStr(fm, "stage") == None ==>
              Router.RouteFile(s, fm, sender) == Err(Router.StageUndefined)
    ensures forall fm :: Router.FormTypeOf(fm) == Some(typeKey) && Router.OptionalStr(fm, "form_id") == None ==>
              Router.RouteFile(s, fm, sender).Err?
  {
    var n, t, version := SomeNames(true, false);
    sender := SomeNode();
    typeKey, graph := t, Graph(n, None);
    var site := OneNode(sender, typeKey, n, n.skill);
    GraphIsValid(WorldOf(site, typeKey), typeKey, n, None);
    GetGraph(n, None);
    GetStages(n, None);
    LoadsAs(n, None);
    forall name | HasKey(Stages(n, None), name) ensures Router.TrimmedStage(Stages(n, None), name) {
      AllTrimmed(n, None, name);
    }
    s := StoreOf(site, typeKey, version, graph);
    NoSuchStage(n, Strip(n.first));
    forall fm | Router.FormTypeOf(fm) == Some(typeKey)
      ensures Router.OptionalStr(fm, "stage") == None ==> Router.RouteFile(s, fm, sender) == Err(Router.StageUndefined)
      ensures Router.OptionalStr(fm, "form_id") == None ==> Router.RouteFile(s, fm, sender).Err?
    {
      NeverStarts(s, fm, sender, typeKey, Router.LoadStageGraph(Obj(graph)).value);
    }
  }

  lemma NoSuchStage(n: Names, name: string)
    requires NamesOk(n) && name !in [n.first, n.last, n.other]
    ensures !HasKey(Stages(n, None), name)
  {
    KeyAbsent(Stages(n, None), name);
  }

  /** Without its start stage a definition starts no form. */
  lemma NeverStarts(s: Router.Store, fm: Router.Frontmatter, sender: Forest.Node, typeKey: string, g: Router.Loaded)
    requires Router.FormTypeOf(fm) == Some(typeKey) && typeKey in s.active
    requires (typeKey, s.active[typeKey]) in s.graphs
    requires Router.LoadStageGraph(s.graphs[(typeKey, s.active[typeKey])]) == Ok(g) && !HasKey(g.stages, g.start)
    ensures Router.OptionalStr(fm, "stage") == None ==> Router.RouteFile(s, fm, sender) == Err(Router.StageUndefined)
    ensures Router.OptionalStr(fm, "form_id") == None ==> Router.RouteFile(s, fm, sender).Err?
  {
  }
}
