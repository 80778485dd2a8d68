/** Compiling a stage graph into an edge list, and looking edges up. */
module Projection {
  import opened Prelude
  import opened Text
  import opened Directory
  import opened StageGraph

  datatype HolderRule = NoHolder | FieldRef(field: string) | StaticNode(id: string) | StaticName(name: string)

  datatype ProjectedEdge = ProjectedEdge(from: string, to: string, decision: string, rule: HolderRule)

  /** Who holds a form that enters a stage with this target. */
  function HolderRuleOf(target: Json): HolderRule {
    if !NonBlankStr(target) then NoHolder
    else
      var t := Strip(target.s);
      if IsNoneWord(t) then NoHolder
      else if t == "{{initiator}}" then FieldRef("initiator_node_id")
      else if t == "{{any}}" then FieldRef("target_node_id")
      else if VariableName(t).Some? then FieldRef(VariableName(t).value + "_node_id")
      else if LooksLikeUuid(t) then StaticNode(t)
      else StaticName(t)
  }

  /** The target of a stage; an unknown or malformed stage has none. */
  function StageTarget(stages: Fields, name: string): Json {
    var payload := Get(stages, name);
    if payload.Obj? then Get(payload.fields, "target") else Null
  }

  function StepEdge(stages: Fields, from: string, step: (string, string)): ProjectedEdge {
    ProjectedEdge(from, step.1, Strip(step.0), HolderRuleOf(StageTarget(stages, step.1)))
  }

  function EdgesFrom(stages: Fields, from: string, steps: seq<(string, string)>): (edges: seq<ProjectedEdge>)
    ensures |edges| == |steps|
  {
    if steps == [] then [] else [StepEdge(stages, from, steps[0])] + EdgesFrom(stages, from, steps[1..])
  }

  function ProjectFrom(all: Fields, rest: Fields): seq<ProjectedEdge> {
    if rest == [] then [] else EdgesFrom(all, rest[0].0, StageSteps(rest[0].1)) + ProjectFrom(all, rest[1..])
  }

  /** The edge list of a stage graph. */
  function Project(stages: Fields): seq<ProjectedEdge> {
    ProjectFrom(stages, stages)
  }

  lemma {:induction false} EdgesAppend(stages: Fields, from: string, a: seq<(string, string)>, b: seq<(string, string)>)
    ensures EdgesFrom(stages, from, a + b) == EdgesFrom(stages, from, a) + EdgesFrom(stages, from, b)
  {
    if a == [] {
      assert a + b == b;
    } else {
      EdgesAppend(stages, from, a[1..], b);
      assert (a + b)[1..] == a[1..] + b && (a + b)[0] == a[0];
      HeadInFront(EdgesFrom(stages, from, a + b), [StepEdge(stages, from, a[0])], EdgesFrom(stages, from, a[1..] + b),
                  EdgesFrom(stages, from, a[1..]), EdgesFrom(stages, from, b));
    }
  }

  /** The edges of the entries up to and including position `i`. */
  lemma EntryEdges(stages: Fields, from: string, entries: Fields, i: nat)
    requires i < |entries|
    ensures EdgesFrom(stages, from, UsableEntries(entries[..i + 1]))
         == EdgesFrom(stages, from, UsableEntries(entries[..i]))
            + if !Blank(entries[i].0) && NonBlankStr(entries[i].1)
              then [StepEdge(stages, from, (entries[i].0, entries[i].1.s))] else []
  {
    UsableSnoc(entries, i);
    var one := UsableEntries([entries[i]]);
    EdgesAppend(stages, from, UsableEntries(entries[..i]), one);
    assert [entries[i]][1..] == [];
    assert |one| == 1 ==> one[1..] == [];
  }

  /** The loop over one stage's decisions: unusable entries are skipped. */
  method ProjectStage(stages: Fields, from: string, entries: Fields) returns (edges: seq<ProjectedEdge>)
    ensures edges == EdgesFrom(stages, from, UsableEntries(entries))
  {
    edges := [];
    var i := 0;
    while i < |entries|
      invariant 0 <= i <= |entries|
      invariant edges == EdgesFrom(stages, from, UsableEntries(entries[..i]))
    {
      EntryEdges(stages, from, entries, i);
      var (decision, next) := entries[i];
      if !Blank(decision) && NonBlankStr(next) {
        edges := edges + [StepEdge(stages, from, (decision, next.s))];
      }
      i := i + 1;
    }
    assert entries[..i] == entries;
  }

  /** Moving the first stage's edges from what is left to what is done. */
  lemma StageEdges(all: Fields, rest: Fields, done: seq<ProjectedEdge>, total: seq<ProjectedEdge>)
    requires rest != [] && done + ProjectFrom(all, rest) == total
    ensures (done + EdgesFrom(all, rest[0].0, StageSteps(rest[0].1))) + ProjectFrom(all, rest[1..]) == total
  {
    var own, more := EdgesFrom(all, rest[0].0, StageSteps(rest[0].1)), ProjectFrom(all, rest[1..]);
    assert ProjectFrom(all, rest) == own + more;
    HeadInFront(total, done, own + more, own, more);
  }

  /** Compiles the edge list stage by stage. */
  method ProjectWorkflow(stages: Fields) returns (edges: seq<ProjectedEdge>)
    ensures edges == Project(stages)
  {
    edges := [];
    var i := 0;
    while i < |stages|
      invariant 0 <= i <= |stages|
      invariant edges + ProjectFrom(stages, stages[i..]) == Project(stages)
    {
      assert stages[i..][0] == stages[i] && stages[i..][1..] == stages[i + 1..];
      StageEdges(stages, stages[i..], edges, Project(stages));
      var (name, payload) := stages[i];
      if payload.Obj? && StageDecisions(payload.fields).Obj? {
        var more := ProjectStage(stages, name, StageDecisions(payload.fields).fields);
        edges := edges + more;
      } else {
        assert edges + EdgesFrom(stages, name, StageSteps(payload)) == edges;
      }
      i := i + 1;
    }
  }

  // ---------------------------------------------------------------------
  // Looking edges up
  // ---------------------------------------------------------------------

  datatype EdgeError = NoEdge | Ambiguous

  function Candidates(edges: seq<ProjectedEdge>, from: string, decision: Option<string>, to: Option<string>):
    seq<ProjectedEdge>
  {
    if edges == [] then []
    else
      (if Matches(edges[0], from, decision, to) then [edges[0]] else []) + Candidates(edges[1..], from, decision, to)
  }

  predicate Matches(e: ProjectedEdge, from: string, decision: Option<string>, to: Option<string>) {
    && e.from == from
    && (decision.Some? ==> e.decision == decision.value)
    && (to.Some? ==> e.to == to.value)
  }

  /** The single edge that matches, or why there is none. */
  function ResolveEdge(edges: seq<ProjectedEdge>, from: string, decision: Option<string>, to: Option<string>):
    Result<ProjectedEdge, EdgeError>
  {
    var found := Candidates(edges, from, decision, to);
    if found == [] then Err(NoEdge) else if |found| > 1 then Err(Ambiguous) else Ok(found[0])
  }

  lemma {:induction false} CandidatesAppend(a: seq<ProjectedEdge>, b: seq<ProjectedEdge>, from: string,
                                            decision: Option<string>, to: Option<string>)
    ensures Candidates(a + b, from, decision, to)
         == Candidates(a, from, decision, to) + Candidates(b, from, decision, to)
  {
    if a == [] {
      assert a + b == b;
    } else {
      CandidatesAppend(a[1..], b, from, decision, to);
      assert (a + b)[1..] == a[1..] + b && (a + b)[0] == a[0];
      HeadInFront(Candidates(a + b, from, decision, to), if Matches(a[0], from, decision, to) then [a[0]] else [],
                  Candidates(a[1..] + b, from, decision, to), Candidates(a[1..], from, decision, to),
                  Candidates(b, from, decision, to));
    }
  }

  lemma {:induction false} CandidatesElsewhere(stages: Fields, name: string, steps: seq<(string, string)>, from: string,
                                               decision: Option<string>)
    requires name != from
    ensures Candidates(EdgesFrom(stages, name, steps), from, decision, None) == []
  {
    if steps != [] { CandidatesElsewhere(stages, name, steps[1..], from, decision); }
  }

  lemma {:induction false} KeyAbsent(fields: Fields, key: string)
    requires forall i :: 0 <= i < |fields| ==> fields[i].0 != key
    ensures !HasKey(fields, key)
  {
    if fields != [] { KeyAbsent(fields[1..], key); }
  }

  lemma HeadKeyOnce(fields: Fields)
    requires UniqueKeys(fields) && fields != []
    ensures !HasKey(fields[1..], fields[0].0)
  {
    KeyAbsent(fields[1..], fields[0].0);
  }

  /** Edges out of a stage come from that stage alone. */
  lemma {:induction false} CandidatesOfStage(all: Fields, rest: Fields, from: string, decision: Option<string>)
    requires UniqueKeys(rest)
    ensures Candidates(ProjectFrom(all, rest), from, decision, None)
         == Candidates(EdgesFrom(all, from, StageSteps(Get(rest, from))), from, decision, None)
  {
    if rest != [] {
      var head := EdgesFrom(all, rest[0].0, StageSteps(rest[0].1));
      CandidatesOfStage(all, rest[1..], from, decision);
      CandidatesAppend(head, ProjectFrom(all, rest[1..]), from, decision, None);
      if rest[0].0 == from {
        HeadKeyOnce(rest);
        GetMissing(rest[1..], from);
      } else {
        CandidatesElsewhere(all, rest[0].0, StageSteps(rest[0].1), from, decision);
      }
    }
  }

  lemma {:induction false} CandidatesByKey(stages: Fields, from: string, steps: seq<(string, string)>, key: string)
    requires NoDup(StrippedKeys(steps))
    ensures var found := Candidates(EdgesFrom(stages, from, steps), from, Some(key), None);
            && (key !in StrippedKeys(steps) ==> found == [])
            && (forall i :: 0 <= i < |steps| && Strip(steps[i].0) == key ==>
                  found == [StepEdge(stages, from, steps[i])])
  {
    if steps != [] {
      var keys := StrippedKeys(steps);
      assert keys[1..] == StrippedKeys(steps[1..]);
      assert keys[0] !in keys[1..];
      CandidatesByKey(stages, from, steps[1..], key);
      StrippedKeysAt(steps);
    }
  }

  /** In a validated stage all entries are usable, so no key is dropped. */
  lemma {:induction false} AllUsable(stages: Fields, entries: Fields)
    requires forall i :: 0 <= i < |entries| ==> EntryOk(stages, entries[i])
    ensures StrippedKeys(UsableEntries(entries)) == StrippedKeys(entries) && |UsableEntries(entries)| == |entries|
    ensures forall i :: 0 <= i < |entries| ==>
              entries[i].1.Str? && UsableEntries(entries)[i] == (entries[i].0, entries[i].1.s)
  {
    if entries != [] {
      assert EntryOk(stages, entries[0]);
      AllUsable(stages, entries[1..]);
    }
  }

  lemma StageStepsValid(stages: Fields, name: string)
    requires SoundStages(stages) && HasKey(stages, name)
    ensures var payload := Get(stages, name);
            var steps := StageSteps(payload);
            && payload.Obj? && NoDup(StrippedKeys(steps))
            && (forall i :: 0 <= i < |steps| ==> HasKey(stages, steps[i].1) && !Blank(steps[i].0) && !Blank(steps[i].1))
            && (steps == [] <==> IsTerminal(payload.fields))
  {
    var k := KeyIndex(stages, name);
    var payload := stages[k].1.fields;
    assert StageSound(stages, stages[k]);
    if StageDecisions(payload).Obj? {
      var entries := StageDecisions(payload).fields;
      AllUsable(stages, entries);
      forall i | 0 <= i < |entries| ensures HasKey(stages, StageSteps(Obj(payload))[i].1) {
        assert EntryOk(stages, entries[i]);
      }
    }
  }

  /** On a validated graph, every decision a stage declares resolves to exactly
      one edge, that edge leads where the stage says, under the holder rule of
      the stage it leads to; no other decision resolves at all. */
  lemma DecisionsResolve(stages: Fields, name: string, key: string)
    requires SoundStages(stages) && HasKey(stages, name)
    ensures var steps := StageSteps(Get(stages, name));
            var r := ResolveEdge(Project(stages), name, Some(key), None);
            && (forall i :: 0 <= i < |steps| && Strip(steps[i].0) == key ==> r == Ok(StepEdge(stages, name, steps[i])))
            && (r.Ok? <==> key in StrippedKeys(steps))
            && r != Err(Ambiguous)
  {
    var steps := StageSteps(Get(stages, name));
    StageStepsValid(stages, name);
    CandidatesOfStage(stages, stages, name, Some(key));
    CandidatesByKey(stages, name, steps, key);
    StrippedKeysAt(steps);
  }

  /** An edge as a request may describe it: by status, and by decision or target. */
  predicate Described(e: ProjectedEdge, from: string, decision: Option<string>, to: Option<string>) {
    e.from == from && (decision.None? || decision.value == e.decision) && (to.None? || to.value == e.to)
  }

  ghost predicate OnlyDescribed(edges: seq<ProjectedEdge>, from: string, decision: Option<string>, to: Option<string>,
                                i: nat)
  {
    && i < |edges| && Described(edges[i], from, decision, to)
    && forall j :: 0 <= j < |edges| && j != i ==> !Described(edges[j], from, decision, to)
  }

  lemma {:induction false} NoneDescribed(edges: seq<ProjectedEdge>, from: string, decision: Option<string>,
                                         to: Option<string>)
    ensures Candidates(edges, from, decision, to) == []
       <==> forall j :: 0 <= j < |edges| ==> !Described(edges[j], from, decision, to)
  {
    if edges != [] { NoneDescribed(edges[1..], from, decision, to); }
  }

  /** A request is resolved to an edge exactly when that is the only one it describes. */
  lemma {:induction false} ResolvesIff(edges: seq<ProjectedEdge>, from: string, decision: Option<string>,
                                       to: Option<string>, e: ProjectedEdge)
    ensures ResolveEdge(edges, from, decision, to) == Ok(e)
       <==> exists i: nat :: OnlyDescribed(edges, from, decision, to, i) && edges[i] == e
  {
    if edges != [] {
      var rest := edges[1..];
      ResolvesIff(rest, from, decision, to, e);
      NoneDescribed(rest, from, decision, to);
      if Described(edges[0], from, decision, to) {
        assert Candidates(edges, from, decision, to)[1..] == Candidates(rest, from, decision, to);
        if Candidates(rest, from, decision, to) == [] {
          assert OnlyDescribed(edges, from, decision, to, 0);
        }
      } else {
        DescribedShifted(edges, from, decision, to, e);
      }
    }
  }

  lemma DescribedShifted(edges: seq<ProjectedEdge>, from: string, decision: Option<string>, to: Option<string>,
                         e: ProjectedEdge)
    requires edges != [] && !Described(edges[0], from, decision, to)
    ensures (exists i: nat :: OnlyDescribed(edges, from, decision, to, i) && edges[i] == e)
       <==> exists i: nat :: OnlyDescribed(edges[1..], from, decision, to, i) && edges[1..][i] == e
  {
    var rest := edges[1..];
    forall i: nat | OnlyDescribed(edges, from, decision, to, i)
      ensures i > 0 && OnlyDescribed(rest, from, decision, to, i - 1)
    {
      assert forall j :: 0 <= j < |rest| ==> rest[j] == edges[j + 1];
    }
    forall i: nat | OnlyDescribed(rest, from, decision, to, i)
      ensures OnlyDescribed(edges, from, decision, to, i + 1)
    {
      assert forall j :: 1 <= j < |edges| ==> edges[j] == rest[j - 1];
    }
  }

  /** The steps whose decision strips to `key`. */
  function WithKey(steps: seq<(string, string)>, key: string): seq<(string, string)> {
    if steps == [] then []
    else (if Strip(steps[0].0) == key then [steps[0]] else []) + WithKey(steps[1..], key)
  }

  lemma {:induction false} CandidatesWithKey(stages: Fields, from: string, steps: seq<(string, string)>, key: string)
    ensures Candidates(EdgesFrom(stages, from, steps), from, Some(key), None)
         == EdgesFrom(stages, from, WithKey(steps, key))
  {
    if steps != [] {
      var edges, rest := EdgesFrom(stages, from, steps), WithKey(steps[1..], key);
      CandidatesWithKey(stages, from, steps[1..], key);
      assert edges[0] == StepEdge(stages, from, steps[0]) && edges[1..] == EdgesFrom(stages, from, steps[1..]);
      assert ([steps[0]] + rest)[1..] == rest && [] + rest == rest;
    }
  }

  lemma {:induction false} WithKeyHas(steps: seq<(string, string)>, i: nat)
    requires i < |steps|
    ensures steps[i] in WithKey(steps, Strip(steps[i].0))
  {
    if i > 0 { WithKeyHas(steps[1..], i - 1); }
  }

  /** A stage's step resolves to its own edge exactly when no other decision of
      the stage strips to the same key; otherwise the ledger refuses it as
      ambiguous. This needs no validation. */
  lemma StepResolvesIff(stages: Fields, name: string, step: (string, string))
    requires UniqueKeys(stages) && step in StageSteps(Get(stages, name))
    ensures var key := Strip(step.0);
            var r := ResolveEdge(Project(stages), name, Some(key), None);
            r == if |WithKey(StageSteps(Get(stages, name)), key)| == 1 then Ok(StepEdge(stages, name, step))
                 else Err(Ambiguous)
  {
    var steps, key := StageSteps(Get(stages, name)), Strip(step.0);
    CandidatesOfStage(stages, stages, name, Some(key));
    CandidatesWithKey(stages, name, steps, key);
    var i :| 0 <= i < |steps| && steps[i] == step;
    WithKeyHas(steps, i);
  }

  /** In a validated stage no two decisions strip to the same key. */
  lemma {:induction false} OneWithKey(steps: seq<(string, string)>, key: string)
    requires NoDup(StrippedKeys(steps))
    ensures |WithKey(steps, key)| <= 1 && (key !in StrippedKeys(steps) ==> WithKey(steps, key) == [])
  {
    if steps != [] {
      assert StrippedKeys(steps)[1..] == StrippedKeys(steps[1..]);
      assert StrippedKeys(steps)[0] !in StrippedKeys(steps)[1..];
      OneWithKey(steps[1..], key);
    }
  }

  lemma {:induction false} AllCandidates(stages: Fields, name: string, steps: seq<(string, string)>)
    ensures Candidates(EdgesFrom(stages, name, steps), name, None, None) == EdgesFrom(stages, name, steps)
  {
    if steps != [] { AllCandidates(stages, name, steps[1..]); }
  }

  /** A form is stuck exactly at terminal stages. */
  lemma StuckIffTerminal(w: World, typeKey: string, graph: Fields, name: string)
    requires ValidStageGraph(w, typeKey, graph) && UniqueKeys(Get(graph, "stages").fields)
    requires HasKey(Get(graph, "stages").fields, name)
    ensures var stages := Get(graph, "stages").fields;
            && Get(stages, name).Obj?
            && (Candidates(Project(stages), name, None, None) == [] <==> IsTerminal(Get(stages, name).fields))
  {
    var stages := Get(graph, "stages").fields;
    ValidIsSound(w, typeKey, graph);
    StageStepsValid(stages, name);
    CandidatesOfStage(stages, stages, name, None);
    AllCandidates(stages, name, StageSteps(Get(stages, name)));
  }

  lemma {:induction false} EdgeOrigin(all: Fields, rest: Fields, e: ProjectedEdge) returns (k: nat, i: nat)
    requires e in ProjectFrom(all, rest)
    ensures k < |rest| && i < |StageSteps(rest[k].1)| && e == StepEdge(all, rest[k].0, StageSteps(rest[k].1)[i])
  {
    var head := EdgesFrom(all, rest[0].0, StageSteps(rest[0].1));
    if e in head {
      k := 0;
      i := EdgeIndex(all, rest[0].0, StageSteps(rest[0].1), e);
    } else {
      k, i := EdgeOrigin(all, rest[1..], e);
      k := k + 1;
    }
  }

  lemma {:induction false} EdgeIndex(all: Fields, from: string, steps: seq<(string, string)>, e: ProjectedEdge)
    returns (i: nat)
    requires e in EdgesFrom(all, from, steps)
    ensures i < |steps| && e == StepEdge(all, from, steps[i])
  {
    if e == StepEdge(all, from, steps[0]) {
      i := 0;
    } else {
      i := EdgeIndex(all, from, steps[1..], e);
      i := i + 1;
    }
  }

  /** Every edge of a published workflow runs between defined stages, along a
      step of the stage it leaves. */
  lemma ProjectedEdgesStayInside(w: World, typeKey: string, graph: Fields, e: ProjectedEdge)
    requires ValidStageGraph(w, typeKey, graph) && UniqueKeys(Get(graph, "stages").fields)
    requires e in Project(Get(graph, "stages").fields)
    ensures HasKey(Get(graph, "stages").fields, e.from) && HasKey(Get(graph, "stages").fields, e.to)
    ensures StepsTo(Get(graph, "stages").fields, e.from, e.to)
  {
    var stages := Get(graph, "stages").fields;
    var k, i := EdgeOrigin(stages, stages, e);
    HasKeyAt(stages, k);
    GetAt(stages, k);
    ValidIsSound(w, typeKey, graph);
    StageStepsValid(stages, stages[k].0);
  }

  // ---------------------------------------------------------------------
  // Decision normalisation
  // ---------------------------------------------------------------------

  /** Assigning a dictionary member: in place when present, else at the end. */
  function Put(fields: Fields, key: string, value: Json): Fields {
    if fields == [] then [(key, value)]
    else if fields[0].0 == key then [(key, value)] + fields[1..]
    else [fields[0]] + Put(fields[1..], key, value)
  }

  function Without(fields: Fields, key: string): Fields {
    if fields == [] then []
    else (if fields[0].0 == key then [] else [fields[0]]) + Without(fields[1..], key)
  }

  /** Folds legacy `transitions` into `decisions`. */
  function NormalizeStage(payload: Fields): Fields {
    var decisions := Get(payload, "decisions");
    var legacy := Get(payload, "transitions");
    Without(if decisions.Obj? then Put(payload, "decisions", decisions)
            else if legacy.Obj? then Put(payload, "decisions", legacy)
            else if decisions != Null then Put(payload, "decisions", decisions)
            else if legacy != Null then Put(payload, "decisions", legacy)
            else payload, "transitions")
  }

  function NormalizeStages(stages: Fields): (r: Fields)
    ensures |r| == |stages|
  {
    if stages == [] then []
    else [(stages[0].0, if stages[0].1.Obj? then Obj(NormalizeStage(stages[0].1.fields)) else stages[0].1)]
         + NormalizeStages(stages[1..])
  }

  lemma {:induction false} GetPut(fields: Fields, key: string, value: Json, other: string)
    ensures Get(Put(fields, key, value), other) == if other == key then value else Get(fields, other)
  {
    if fields != [] { GetPut(fields[1..], key, value, other); }
  }

  lemma {:induction false} GetWithout(fields: Fields, key: string, other: string)
    ensures Get(Without(fields, key), other) == if other == key then Null else Get(fields, other)
  {
    if fields != [] {
      GetWithout(fields[1..], key, other);
      var rest := Without(fields[1..], key);
      assert [] + rest == rest;
      assert ([fields[0]] + rest)[1..] == rest;
    }
  }

  lemma {:induction false} WithoutTwice(fields: Fields, key: string)
    ensures Without(Without(fields, key), key) == Without(fields, key)
  {
    if fields != [] {
      WithoutTwice(fields[1..], key);
      var rest := Without(fields[1..], key);
      assert [] + rest == rest;
      assert ([fields[0]] + rest)[1..] == rest;
    }
  }

  lemma {:induction false} PutSame(fields: Fields, key: string, value: Json)
    requires value != Null && Get(fields, key) == value
    ensures Put(fields, key, value) == fields
  {
    if fields[0].0 != key { PutSame(fields[1..], key, value); }
  }

  lemma NormalizeStageGets(payload: Fields)
    ensures var n := NormalizeStage(payload);
            var decisions, legacy := Get(payload, "decisions"), Get(payload, "transitions");
            && Get(n, "transitions") == Null
            && Get(n, "decisions") == (if decisions.Obj? then decisions else if legacy.Obj? then legacy
                                       else if decisions != Null then decisions else legacy)
            && (forall key :: key != "decisions" && key != "transitions" ==> Get(n, key) == Get(payload, key))
  {
    var decisions, legacy := Get(payload, "decisions"), Get(payload, "transitions");
    var value := if decisions.Obj? then decisions else if legacy.Obj? then legacy
                 else if decisions != Null then decisions else legacy;
    var put := if value == Null then payload else Put(payload, "decisions", value);
    forall key ensures Get(NormalizeStage(payload), key)
        == if key == "transitions" then Null else if key == "decisions" then value else Get(payload, key)
    {
      GetPut(payload, "decisions", value, key);
      GetWithout(put, "transitions", key);
    }
  }

  /** Normalising twice changes nothing the second time. */
  lemma NormalizeStageIdempotent(payload: Fields)
    ensures NormalizeStage(NormalizeStage(payload)) == NormalizeStage(payload)
  {
    var n := NormalizeStage(payload);
    NormalizeStageGets(payload);
    var decisions := Get(n, "decisions");
    if decisions != Null { PutSame(n, "decisions", decisions); }
    var decisions0, legacy0 := Get(payload, "decisions"), Get(payload, "transitions");
    WithoutTwice(if decisions0.Obj? then Put(payload, "decisions", decisions0)
                 else if legacy0.Obj? then Put(payload, "decisions", legacy0)
                 else if decisions0 != Null then Put(payload, "decisions", decisions0)
                 else if legacy0 != Null then Put(payload, "decisions", legacy0)
                 else payload, "transitions");
  }

  lemma {:induction false} NormalizeIdempotent(stages: Fields)
    ensures NormalizeStages(NormalizeStages(stages)) == NormalizeStages(stages)
  {
    if stages != [] {
      if stages[0].1.Obj? { NormalizeStageIdempotent(stages[0].1.fields); }
      NormalizeIdempotent(stages[1..]);
    }
  }

  /** A stage whose `decisions` is neither absent nor an object hides usable
      legacy transitions that normalisation would bring back. */
  predicate HidesTransitions(stage: (string, Json)) {
    && stage.1.Obj?
    && var decisions, legacy := Get(stage.1.fields, "decisions"), Get(stage.1.fields, "transitions");
       decisions != Null && !decisions.Obj? && legacy.Obj? && UsableEntries(legacy.fields) != []
  }

  lemma StepsAfterNormalize(stage: (string, Json))
    requires stage.1.Obj?
    ensures var n := Obj(NormalizeStage(stage.1.fields));
            && (!HidesTransitions(stage) ==> StageSteps(n) == StageSteps(stage.1))
            && (HidesTransitions(stage) ==> StageSteps(stage.1) == [] && StageSteps(n) != [])
            && Get(n.fields, "target") == Get(stage.1.fields, "target")
  {
    NormalizeStageGets(stage.1.fields);
  }

  lemma {:induction false} NormalizeKeepsTargets(stages: Fields, name: string)
    ensures StageTarget(NormalizeStages(stages), name) == StageTarget(stages, name)
  {
    if stages != [] {
      NormalizeKeepsTargets(stages[1..], name);
      if stages[0].1.Obj? { StepsAfterNormalize(stages[0]); }
    }
  }

  lemma {:induction false} SameTargetsSameEdges(a: Fields, b: Fields, from: string, steps: seq<(string, string)>)
    requires forall name :: StageTarget(a, name) == StageTarget(b, name)
    ensures EdgesFrom(a, from, steps) == EdgesFrom(b, from, steps)
  {
    if steps != [] { SameTargetsSameEdges(a, b, from, steps[1..]); }
  }

  /** Normalising adds edges exactly for the stages that hide transitions. */
  lemma {:induction false} NormalizedProjection(all: Fields, rest: Fields)
    ensures var before, after := ProjectFrom(all, rest), ProjectFrom(NormalizeStages(all), NormalizeStages(rest));
            && |after| >= |before|
            && ((forall i :: 0 <= i < |rest| ==> !HidesTransitions(rest[i])) ==> after == before)
            && ((exists i :: 0 <= i < |rest| && HidesTransitions(rest[i])) ==> |after| > |before|)
  {
    if rest != [] {
      NormalizedProjection(all, rest[1..]);
      forall name ensures StageTarget(NormalizeStages(all), name) == StageTarget(all, name) {
        NormalizeKeepsTargets(all, name);
      }
      SameTargetsSameEdges(all, NormalizeStages(all), rest[0].0, StageSteps(rest[0].1));
      if rest[0].1.Obj? { StepsAfterNormalize(rest[0]); }
      assert forall i :: 0 <= i < |rest[1..]| ==> rest[1..][i] == rest[i + 1];
    }
  }

  /** Projecting after normalisation gives the same edges exactly when no stage
      hides transitions; in particular whenever `decisions` is absent or an object. */
  lemma NormalizePreservesEdgesIff(stages: Fields)
    ensures Project(NormalizeStages(stages)) == Project(stages)
       <==> forall i :: 0 <= i < |stages| ==> !HidesTransitions(stages[i])
  {
    NormalizedProjection(stages, stages);
  }
}
