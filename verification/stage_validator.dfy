/** The stage-graph validator: it walks the definition once, collecting
    problems, and then checks reachability with a worklist. */
module StageValidator {
  import opened Prelude
  import opened Text
  import opened Directory
  import opened StageGraph

  datatype Problem =
    | FormTypeMismatch | NoStages
    | NoStartStage | UnknownStartStage(stage: string)
    | NoEndStage | UnknownEndStage(stage: string) | EndStageHasDecisions | EndStageUnreachable
    | BlankStageName | StageNotObject(stage: string)
    | BadTarget(stage: string) | TargetRequired(stage: string) | TargetUnresolved(stage: string)
    | SkillRequired(stage: string) | SkillBlank(stage: string) | SkillsMissing(skills: set<string>)
    | DecisionsNotObject(stage: string) | DecisionsRequired(stage: string) | TerminalHasDecisions(stage: string)
    | BlankDecision(stage: string) | NextStageRequired(stage: string, decision: string)
    | UnknownNextStage(stage: string, decision: string) | DuplicateDecision(stage: string, decision: string)
    | Unreachable(stages: set<string>)
    | AllowlistNotArray | AllowlistItemInvalid(index: nat)

  // ---------------------------------------------------------------------
  // The worklist
  // ---------------------------------------------------------------------

  type Adjacency = map<string, set<string>>

  function Next(adj: Adjacency, s: string): set<string> {
    if s in adj then adj[s] else {}
  }

  ghost predicate AdjPath(adj: Adjacency, path: seq<string>) {
    path != [] && forall i :: 1 <= i < |path| ==> path[i] in Next(adj, path[i - 1])
  }

  ghost predicate AdjReaches(adj: Adjacency, a: string, b: string) {
    exists path :: AdjPath(adj, path) && path[0] == a && path[|path| - 1] == b
  }

  lemma AdjExtend(adj: Adjacency, a: string, b: string, c: string)
    requires AdjReaches(adj, a, b) && c in Next(adj, b)
    ensures AdjReaches(adj, a, c)
  {
    var path :| AdjPath(adj, path) && path[0] == a && path[|path| - 1] == b;
    assert AdjPath(adj, path + [c]);
  }

  /** A set that holds the start and is closed under steps holds whatever is reachable. */
  lemma {:induction false} ClosedHoldsPath(adj: Adjacency, closed: set<string>, path: seq<string>)
    requires AdjPath(adj, path) && path[0] in closed
    requires forall s :: s in closed ==> Next(adj, s) <= closed
    ensures path[|path| - 1] in closed
  {
    if |path| > 1 {
      assert path[1] in Next(adj, path[0]);
      ClosedHoldsPath(adj, closed, path[1..]);
    }
  }

  ghost function Universe(adj: Adjacency, start: string): set<string> {
    {start} + set a, b | a in adj && b in adj[a] :: b
  }

  /** The worklist stops with exactly the stages reachable from the start. */
  method ReachableFrom(adj: Adjacency, start: string) returns (reachable: set<string>)
    ensures forall s :: s in reachable <==> AdjReaches(adj, start, s)
  {
    reachable := {start};
    var stack := [start];
    assert AdjPath(adj, [start]);
    while stack != []
      invariant start in reachable && reachable <= Universe(adj, start)
      invariant forall s :: s in stack ==> s in reachable
      invariant forall s :: s in reachable ==> AdjReaches(adj, start, s)
      invariant forall s :: s in reachable && s !in stack ==> Next(adj, s) <= reachable
      decreases Universe(adj, start) - reachable, |stack|
    {
      var stage := stack[|stack| - 1];
      stack := stack[..|stack| - 1];
      ghost var before, rest := reachable, stack;
      var todo := Next(adj, stage);
      while todo != {}
        invariant todo <= Next(adj, stage) <= reachable + todo
        invariant before <= reachable <= Universe(adj, start)
        invariant reachable == before ==> stack == rest
        invariant forall s :: s in stack ==> s in reachable
        invariant forall s :: s in rest ==> s in stack
        invariant forall s :: s in reachable ==> AdjReaches(adj, start, s)
        invariant forall s :: s in reachable && s !in before ==> s in stack
        invariant before < reachable || reachable == before
        decreases todo
      {
        var nxt :| nxt in todo;
        todo := todo - {nxt};
        if nxt !in reachable {
          AdjExtend(adj, start, stage, nxt);
          reachable := reachable + {nxt};
          stack := stack + [nxt];
        }
      }
    }
    forall s | AdjReaches(adj, start, s) ensures s in reachable {
      var path :| AdjPath(adj, path) && path[0] == start && path[|path| - 1] == s;
      ClosedHoldsPath(adj, reachable, path);
    }
  }

  // ---------------------------------------------------------------------
  // One stage
  // ---------------------------------------------------------------------

  ghost function TargetsOf(steps: seq<(string, string)>): set<string> {
    set i | 0 <= i < |steps| :: steps[i].1
  }

  lemma TargetsSnoc(a: seq<(string, string)>, b: seq<(string, string)>)
    ensures TargetsOf(a + b) == TargetsOf(a) + TargetsOf(b)
  {
    assert forall i :: 0 <= i < |a| ==> (a + b)[i] == a[i];
    assert forall i :: 0 <= i < |b| ==> (a + b)[|a| + i] == b[i];
  }

  lemma {:induction false} StrippedAppend(a: Fields, b: Fields)
    ensures StrippedKeys(a + b) == StrippedKeys(a) + StrippedKeys(b)
  {
    if a == [] {
      assert a + b == b;
    } else {
      StrippedAppend(a[1..], b);
      assert (a + b)[1..] == a[1..] + b && (a + b)[0] == a[0];
      HeadInFront(StrippedKeys(a + b), [Strip(a[0].0)], StrippedKeys(a[1..] + b), StrippedKeys(a[1..]),
                  StrippedKeys(b));
    }
  }

  lemma EntriesSnoc(stages: Fields, entries: Fields, i: nat)
    requires i < |entries|
    ensures StrippedKeys(entries[..i + 1]) == StrippedKeys(entries[..i]) + [Strip(entries[i].0)]
    ensures EntriesOk(stages, entries[..i + 1]) <==>
              && EntriesOk(stages, entries[..i]) && EntryOk(stages, entries[i])
              && Strip(entries[i].0) !in StrippedKeys(entries[..i])
  {
    var longer, shorter := entries[..i + 1], entries[..i];
    assert longer == shorter + [entries[i]];
    StrippedAppend(shorter, [entries[i]]);
    NoDupSnoc(StrippedKeys(shorter), Strip(entries[i].0));
    assert longer[i] == entries[i];
    assert forall j :: 0 <= j < i ==> longer[j] == shorter[j];
  }

  /** While nothing was wrong, the decisions seen are those of the entries so far. */
  ghost predicate SeenSoFar(stages: Fields, entries: Fields, seen: set<string>) {
    EntriesOk(stages, entries) ==> forall k :: k in seen <==> k in StrippedKeys(entries)
  }

  lemma SeenSnoc(stages: Fields, entries: Fields, i: nat, seen: set<string>)
    requires i < |entries| && SeenSoFar(stages, entries[..i], seen)
    ensures EntriesOk(stages, entries[..i + 1]) <==>
              && EntriesOk(stages, entries[..i]) && EntryOk(stages, entries[i]) && Strip(entries[i].0) !in seen
    ensures SeenSoFar(stages, entries[..i + 1], seen + {Strip(entries[i].0)})
    ensures !EntryOk(stages, entries[i]) ==> SeenSoFar(stages, entries[..i + 1], seen)
  {
    EntriesSnoc(stages, entries, i);
  }

  lemma UsableTargets(entries: Fields, i: nat)
    requires i < |entries|
    ensures TargetsOf(UsableEntries(entries[..i + 1]))
         == TargetsOf(UsableEntries(entries[..i]))
            + (if !Blank(entries[i].0) && NonBlankStr(entries[i].1) then {entries[i].1.s} else {})
  {
    UsableSnoc(entries, i);
    var one := UsableEntries([entries[i]]);
    TargetsSnoc(UsableEntries(entries[..i]), one);
    assert |one| == 1 ==> TargetsOf(one) == {one[0].1};
    assert [entries[i]][1..] == [];
  }

  /** Checks the decision entries of a stage and collects where they lead. */
  method ValidateDecisions(stages: Fields, name: string, entries: Fields)
    returns (problems: seq<Problem>, targets: set<string>)
    ensures problems == [] <==> EntriesOk(stages, entries)
    ensures targets == TargetsOf(UsableEntries(entries))
  {
    problems, targets := [], {};
    var seen: set<string> := {};
    var i := 0;
    while i < |entries|
      invariant 0 <= i <= |entries|
      invariant problems == [] <==> EntriesOk(stages, entries[..i])
      invariant SeenSoFar(stages, entries[..i], seen)
      invariant targets == TargetsOf(UsableEntries(entries[..i]))
    {
      var (decision, next) := entries[i];
      SeenSnoc(stages, entries, i, seen);
      UsableTargets(entries, i);
      i := i + 1;
      if Blank(decision) {
        problems := problems + [BlankDecision(name)];
      } else if !NonBlankStr(next) {
        problems := problems + [NextStageRequired(name, decision)];
      } else {
        if !HasKey(stages, next.s) {
          problems := problems + [UnknownNextStage(name, decision)];
        }
        if Strip(decision) in seen {
          problems := problems + [DuplicateDecision(name, Strip(decision))];
        }
        seen := seen + {Strip(decision)};
        targets := targets + {next.s};
      }
    }
    assert entries[..i] == entries;
  }

  ghost predicate StageShapeOk(w: World, stages: Fields, payload: Fields) {
    TargetOk(w, payload) && SkillNamed(payload) && DecisionsOk(stages, payload)
  }

  /** Checks one stage object. */
  method ValidateStage(w: World, stages: Fields, name: string, payload: Fields)
    returns (problems: seq<Problem>, targets: set<string>)
    ensures problems == [] <==> StageShapeOk(w, stages, payload)
    ensures targets == TargetsOf(StageSteps(Obj(payload)))
  {
    problems := [];
    var isTerminal := IsTerminal(payload);
    var target := Get(payload, "target");
    var targetIsNone := false;
    var stripped := "";
    if target == Null {
      targetIsNone := true;
    } else if !NonBlankStr(target) {
      problems := problems + [BadTarget(name)];
    } else {
      stripped := Strip(target.s);
      if IsNoneWord(stripped) {
        targetIsNone := true;
      }
    }
    if !isTerminal && targetIsNone {
      problems := problems + [TargetRequired(name)];
    }
    if NonBlankStr(target) && !targetIsNone && VariableName(stripped).None? {
      if ResolveReference(w.dir, stripped).Err? {
        problems := problems + [TargetUnresolved(name)];
      }
    }
    assert problems == [] <==> TargetOk(w, payload);

    var skill := Get(payload, "required_skill");
    if !isTerminal || !targetIsNone {
      if !NonBlankStr(skill) {
        problems := problems + [SkillRequired(name)];
      }
    } else if skill != Null && !NonBlankStr(skill) {
      problems := problems + [SkillBlank(name)];
    }
    assert problems == [] <==> TargetOk(w, payload) && SkillNamed(payload);

    var decisions := StageDecisions(payload);
    var entries: Fields := [];
    if decisions.Obj? {
      entries := decisions.fields;
    } else if decisions != Null {
      problems := problems + [DecisionsNotObject(name)];
    }
    if !isTerminal && entries == [] {
      problems := problems + [DecisionsRequired(name)];
    }
    if isTerminal && entries != [] {
      problems := problems + [TerminalHasDecisions(name)];
    }
    var more, reached := ValidateDecisions(stages, name, entries);
    problems := problems + more;
    targets := reached;
  }

  // ---------------------------------------------------------------------
  // The whole definition
  // ---------------------------------------------------------------------

  ghost predicate StageAcceptable(w: World, stages: Fields, stage: (string, Json)) {
    !Blank(stage.0) && stage.1.Obj? && StageShapeOk(w, stages, stage.1.fields)
  }

  /** The adjacency collected from the first `n` stages. */
  ghost predicate AdjacencyOf(stages: Fields, n: nat, adj: Adjacency)
    requires n <= |stages|
  {
    && (forall i :: 0 <= i < n && !Blank(stages[i].0) ==> Next(adj, stages[i].0) == TargetsOf(StageSteps(stages[i].1)))
    && (forall s :: s in adj ==> exists i :: 0 <= i < n && stages[i].0 == s && !Blank(s))
  }

  ghost predicate SkillsOf(stages: Fields, n: nat, skills: set<string>)
    requires n <= |stages|
  {
    forall s :: s in skills <==> exists i :: 0 <= i < n && SkillRequiredBy(stages[i], s)
  }

  predicate SkillRequiredBy(stage: (string, Json), skill: string) {
    && !Blank(stage.0) && stage.1.Obj?
    && var named := Get(stage.1.fields, "required_skill");
       NonBlankStr(named) && Strip(named.s) == skill
  }

  lemma NewName(stages: Fields, n: nat, adj: Adjacency)
    requires n < |stages| && UniqueKeys(stages) && AdjacencyOf(stages, n, adj)
    ensures stages[n].0 !in adj && forall i :: 0 <= i < n ==> stages[i].0 != stages[n].0
  {
  }

  lemma AdjacencySet(stages: Fields, n: nat, adj: Adjacency, targets: set<string>)
    requires n < |stages| && UniqueKeys(stages) && AdjacencyOf(stages, n, adj) && !Blank(stages[n].0)
    requires targets == TargetsOf(StageSteps(stages[n].1))
    ensures AdjacencyOf(stages, n + 1, adj[stages[n].0 := targets])
  {
    var next := adj[stages[n].0 := targets];
    NewName(stages, n, adj);
    forall i | 0 <= i < n + 1 && !Blank(stages[i].0)
      ensures Next(next, stages[i].0) == TargetsOf(StageSteps(stages[i].1))
    {
      if i < n { assert Next(next, stages[i].0) == Next(adj, stages[i].0); }
    }
  }

  lemma AdjacencySkip(stages: Fields, n: nat, adj: Adjacency)
    requires n < |stages| && UniqueKeys(stages) && AdjacencyOf(stages, n, adj)
    requires Blank(stages[n].0) || TargetsOf(StageSteps(stages[n].1)) == {}
    ensures AdjacencyOf(stages, n + 1, adj)
  {
    NewName(stages, n, adj);
    forall i | 0 <= i < n + 1 && !Blank(stages[i].0)
      ensures Next(adj, stages[i].0) == TargetsOf(StageSteps(stages[i].1))
    {
      if i == n { assert Next(adj, stages[n].0) == {}; }
    }
  }

  lemma SkillsStep(stages: Fields, n: nat, skills: set<string>, named: Json)
    requires n < |stages| && SkillsOf(stages, n, skills)
    requires !Blank(stages[n].0) && stages[n].1.Obj? && named == Get(stages[n].1.fields, "required_skill")
    ensures NonBlankStr(named) ==> SkillsOf(stages, n + 1, skills + {Strip(named.s)})
    ensures !NonBlankStr(named) ==> SkillsOf(stages, n + 1, skills)
  {
    if NonBlankStr(named) {
      assert SkillRequiredBy(stages[n], Strip(named.s));
    }
  }

  /** Checks the stage at `i` and adds its steps and skill to what is collected. */
  method CollectStage(w: World, stages: Fields, i: nat, adj: Adjacency, skills: set<string>)
    returns (problems: seq<Problem>, adj': Adjacency, skills': set<string>)
    requires i < |stages| && UniqueKeys(stages) && AdjacencyOf(stages, i, adj) && SkillsOf(stages, i, skills)
    ensures problems == [] <==> StageAcceptable(w, stages, stages[i])
    ensures AdjacencyOf(stages, i + 1, adj') && SkillsOf(stages, i + 1, skills')
  {
    var (name, payload) := stages[i];
    problems, adj', skills' := [], adj, skills;
    if Blank(name) {
      problems := [BlankStageName];
      AdjacencySkip(stages, i, adj);
    } else if !payload.Obj? {
      problems := [StageNotObject(name)];
      NoTargetsNoSteps(StageSteps(payload));
      AdjacencySkip(stages, i, adj);
    } else {
      var targets;
      problems, targets := ValidateStage(w, stages, name, payload.fields);
      var skill := Get(payload.fields, "required_skill");
      SkillsStep(stages, i, skills, skill);
      if NonBlankStr(skill) {
        skills' := skills + {Strip(skill.s)};
      }
      if targets != {} {
        adj' := adj[name := targets];
        AdjacencySet(stages, i, adj, targets);
      } else {
        AdjacencySkip(stages, i, adj);
      }
    }
  }

  ghost predicate AcceptableUpTo(w: World, stages: Fields, n: nat)
    requires n <= |stages|
  {
    forall i :: 0 <= i < n ==> StageAcceptable(w, stages, stages[i])
  }

  lemma OneMoreAcceptable(w: World, stages: Fields, n: nat)
    requires n < |stages|
    ensures AcceptableUpTo(w, stages, n + 1) <==> AcceptableUpTo(w, stages, n) && StageAcceptable(w, stages, stages[n])
  {
  }

  /** Walks the stages, collecting problems, steps and required skills. */
  method CollectStages(w: World, stages: Fields)
    returns (problems: seq<Problem>, adj: Adjacency, skills: set<string>)
    requires UniqueKeys(stages)
    ensures problems == [] <==> forall i :: 0 <= i < |stages| ==> StageAcceptable(w, stages, stages[i])
    ensures AdjacencyOf(stages, |stages|, adj) && SkillsOf(stages, |stages|, skills)
  {
    problems, adj, skills := [], map[], {};
    var i := 0;
    while i < |stages|
      invariant 0 <= i <= |stages|
      invariant problems == [] <==> AcceptableUpTo(w, stages, i)
      invariant AdjacencyOf(stages, i, adj) && SkillsOf(stages, i, skills)
    {
      var more;
      more, adj, skills := CollectStage(w, stages, i, adj, skills);
      OneMoreAcceptable(w, stages, i);
      problems := problems + more;
      i := i + 1;
    }
  }

  method ValidateAllowlist(w: World, allowlist: Json) returns (problems: seq<Problem>)
    ensures problems == [] <==> AllowlistOk(w, allowlist)
  {
    if allowlist == Null {
      return [];
    }
    if !allowlist.Arr? || allowlist.items == [] {
      return [AllowlistNotArray];
    }
    problems := [];
    var i := 0;
    while i < |allowlist.items|
      invariant 0 <= i <= |allowlist.items|
      invariant problems == [] <==> forall j :: 0 <= j < i ==>
                  var item := allowlist.items[j];
                  NonBlankStr(item) && (Strip(item.s) == "{{any}}" || ResolveReference(w.dir, Strip(item.s)).Ok?)
    {
      var item := allowlist.items[i];
      if !NonBlankStr(item) {
        problems := problems + [AllowlistItemInvalid(i)];
      } else if Strip(item.s) != "{{any}}" && ResolveReference(w.dir, Strip(item.s)).Err? {
        problems := problems + [AllowlistItemInvalid(i)];
      }
      i := i + 1;
    }
  }

  ghost predicate HeadOk(typeKey: string, graph: Fields, stages: Fields) {
    && (Get(graph, "form_type") == Null || Get(graph, "form_type") == Str(typeKey))
    && Get(graph, "stages") == Obj(stages) && stages != []
    && DefinedStage(stages, StartStage(graph, stages))
    && DefinedStage(stages, Get(graph, "end_stage"))
  }

  /** Checks everything declared outside the stages. */
  method ValidateHead(typeKey: string, graph: Fields) returns (problems: seq<Problem>, stages: Fields)
    ensures problems == [] <==> HeadOk(typeKey, graph, stages)
    ensures Get(graph, "stages") == Obj(stages) || stages == []
    ensures Get(graph, "stages").Obj? ==> stages == Get(graph, "stages").fields
  {
    problems, stages := [], [];
    var formType := Get(graph, "form_type");
    if formType != Null && formType != Str(typeKey) {
      problems := problems + [FormTypeMismatch];
    }
    if Get(graph, "stages").Obj? && Get(graph, "stages").fields != [] {
      stages := Get(graph, "stages").fields;
    } else {
      problems := problems + [NoStages];
    }
    var startStage := StartStage(graph, stages);
    if !NonBlankStr(startStage) {
      problems := problems + [NoStartStage];
    } else if !HasKey(stages, startStage.s) {
      problems := problems + [UnknownStartStage(startStage.s)];
    }
    var endStage := Get(graph, "end_stage");
    if !NonBlankStr(endStage) {
      problems := problems + [NoEndStage];
    } else if !HasKey(stages, endStage.s) {
      problems := problems + [UnknownEndStage(endStage.s)];
    }
  }

  /** The collected adjacency steps exactly as the stages do. */
  lemma AdjacencyIsSteps(stages: Fields, adj: Adjacency, s: string)
    requires UniqueKeys(stages) && AdjacencyOf(stages, |stages|, adj)
    requires forall i :: 0 <= i < |stages| ==> !Blank(stages[i].0)
    ensures Next(adj, s) == TargetsOf(StageSteps(Get(stages, s)))
  {
    if HasKey(stages, s) {
      var i := KeyIndex(stages, s);
    } else {
      GetMissing(stages, s);
      if s in adj {
        var i :| 0 <= i < |stages| && stages[i].0 == s;
        HasKeyAt(stages, i);
        assert false;
      }
    }
  }

  lemma PathsAgree(stages: Fields, adj: Adjacency, path: seq<string>)
    requires UniqueKeys(stages) && AdjacencyOf(stages, |stages|, adj)
    requires forall i :: 0 <= i < |stages| ==> !Blank(stages[i].0)
    ensures AdjPath(adj, path) <==> StagePath(stages, path)
  {
    forall i | 1 <= i < |path|
      ensures path[i] in Next(adj, path[i - 1]) <==> StepsTo(stages, path[i - 1], path[i])
    {
      AdjacencyIsSteps(stages, adj, path[i - 1]);
    }
  }

  lemma ReachabilityAgrees(stages: Fields, adj: Adjacency, a: string, b: string)
    requires UniqueKeys(stages) && AdjacencyOf(stages, |stages|, adj)
    requires forall i :: 0 <= i < |stages| ==> !Blank(stages[i].0)
    ensures AdjReaches(adj, a, b) <==> Reaches(stages, a, b)
  {
    if AdjReaches(adj, a, b) {
      var path :| AdjPath(adj, path) && path[0] == a && path[|path| - 1] == b;
      PathsAgree(stages, adj, path);
    }
    if Reaches(stages, a, b) {
      var path :| StagePath(stages, path) && path[0] == a && path[|path| - 1] == b;
      PathsAgree(stages, adj, path);
    }
  }

  /** Given a good head, well-formedness is what the walk over the stages checks. */
  lemma WellFormedIff(w: World, typeKey: string, graph: Fields, stages: Fields, adj: Adjacency, skills: set<string>)
    requires HeadOk(typeKey, graph, stages) && UniqueKeys(stages)
    requires AdjacencyOf(stages, |stages|, adj) && SkillsOf(stages, |stages|, skills)
    ensures WellFormed(w, typeKey, graph) <==>
              && (forall i :: 0 <= i < |stages| ==> StageAcceptable(w, stages, stages[i]))
              && Next(adj, Get(graph, "end_stage").s) == {}
              && skills <= w.skills
  {
    var acceptable := forall i :: 0 <= i < |stages| ==> StageAcceptable(w, stages, stages[i]);
    var end := Get(graph, "end_stage").s;
    if acceptable {
      AdjacencyIsSteps(stages, adj, end);
      NoTargetsNoSteps(StageSteps(Get(stages, end)));
      AcceptableIff(w, stages, skills);
    }
  }

  lemma NoTargetsNoSteps(steps: seq<(string, string)>)
    ensures TargetsOf(steps) == {} <==> steps == []
  {
    if steps != [] { assert steps[0].1 in TargetsOf(steps); }
  }

  lemma AcceptableIff(w: World, stages: Fields, skills: set<string>)
    requires SkillsOf(stages, |stages|, skills)
    requires forall i :: 0 <= i < |stages| ==> StageAcceptable(w, stages, stages[i])
    ensures (forall i :: 0 <= i < |stages| ==> StageOk(w, stages, stages[i])) <==> skills <= w.skills
  {
    forall i | 0 <= i < |stages|
      ensures StageOk(w, stages, stages[i]) <==> SkillPresent(w, stages[i].1.fields)
    {
      assert StageAcceptable(w, stages, stages[i]);
    }
    if skills <= w.skills {
      forall i | 0 <= i < |stages| ensures SkillPresent(w, stages[i].1.fields) {
        var named := Get(stages[i].1.fields, "required_skill");
        if NonBlankStr(named) { assert SkillRequiredBy(stages[i], Strip(named.s)); }
      }
    }
  }

  lemma AllReachableIff(stages: Fields, adj: Adjacency, start: string, reachable: set<string>)
    requires UniqueKeys(stages) && AdjacencyOf(stages, |stages|, adj)
    requires forall i :: 0 <= i < |stages| ==> !Blank(stages[i].0)
    requires forall s :: s in reachable <==> AdjReaches(adj, start, s)
    ensures (forall i :: 0 <= i < |stages| ==> stages[i].0 in reachable)
       <==> (forall i :: 0 <= i < |stages| ==> Reaches(stages, start, stages[i].0))
  {
    forall i | 0 <= i < |stages| ensures stages[i].0 in reachable <==> Reaches(stages, start, stages[i].0) {
      ReachabilityAgrees(stages, adj, start, stages[i].0);
    }
  }

  /** The unreachable stages, as one problem, and the end stage if it is one. */
  method ValidateReachability(stages: Fields, adj: Adjacency, start: string, end: string)
    returns (problems: seq<Problem>)
    requires UniqueKeys(stages) && AdjacencyOf(stages, |stages|, adj) && HasKey(stages, end)
    requires forall i :: 0 <= i < |stages| ==> !Blank(stages[i].0)
    ensures problems == [] <==> forall i :: 0 <= i < |stages| ==> Reaches(stages, start, stages[i].0)
  {
    problems := [];
    var reachable := ReachableFrom(adj, start);
    AllReachableIff(stages, adj, start, reachable);
    var unreachable := set i | 0 <= i < |stages| && stages[i].0 !in reachable :: stages[i].0;
    if unreachable != {} {
      problems := problems + [Unreachable(unreachable)];
    }
    ghost var e := KeyIndex(stages, end);
    if end !in reachable {
      assert stages[e].0 !in reachable;
      problems := problems + [EndStageUnreachable];
    }
    assert unreachable == {} <==> forall i :: 0 <= i < |stages| ==> stages[i].0 in reachable by {
      if unreachable == {} {
        forall i | 0 <= i < |stages| ensures stages[i].0 in reachable {
          assert stages[i].0 !in unreachable;
        }
      }
    }
  }

  /** Reports no problem exactly for the definitions that may be published. */
  method ValidateStageGraph(w: World, typeKey: string, graph: Fields) returns (problems: seq<Problem>)
    requires Get(graph, "stages").Obj? ==> UniqueKeys(Get(graph, "stages").fields)
    ensures problems == [] <==> StageGraph.ValidStageGraph(w, typeKey, graph)
  {
    var head, stages := ValidateHead(typeKey, graph);
    var startStage := StartStage(graph, stages);
    var endStage := Get(graph, "end_stage");
    var body, adj, skills := CollectStages(w, stages);
    problems := head + body;
    if NonBlankStr(endStage) && Next(adj, endStage.s) != {} {
      problems := problems + [EndStageHasDecisions];
    }
    if head == [] {
      WellFormedIff(w, typeKey, graph, stages, adj, skills);
    }
    ghost var inner := problems;
    if problems == [] && NonBlankStr(startStage) && NonBlankStr(endStage) {
      assert forall i :: 0 <= i < |stages| ==> StageAcceptable(w, stages, stages[i]);
      problems := ValidateReachability(stages, adj, startStage.s, endStage.s);
    }
    var allowlistProblems := ValidateAllowlist(w, Get(graph, "initiator_allowlist"));
    problems := problems + allowlistProblems;
    if !(skills <= w.skills) {
      problems := problems + [SkillsMissing(skills - w.skills)];
    }
  }
}
