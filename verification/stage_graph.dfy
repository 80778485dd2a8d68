/** Workflow definitions as JSON stage graphs: their steps, their validation,
    and the worklist that computes what is reachable. */
module StageGraph {
  import opened Prelude
  import opened Text
  import opened Forest
  import opened Directory

  datatype Json =
    | Null
    | Bool(b: bool)
    | Num(n: int)
    | Str(s: string)
    | Arr(items: seq<Json>)
    | Obj(fields: Fields)

  /** An object's members in order; keys are unique in every decoded object. */
  type Fields = seq<(string, Json)>

  ghost predicate UniqueKeys(fields: Fields) {
    forall i, j :: 0 <= i < j < |fields| ==> fields[i].0 != fields[j].0
  }

  /** A missing member and a null member read the same. */
  function Get(fields: Fields, key: string): Json {
    if fields == [] then Null else if fields[0].0 == key then fields[0].1 else Get(fields[1..], key)
  }

  predicate HasKey(fields: Fields, key: string) {
    fields != [] && (fields[0].0 == key || HasKey(fields[1..], key))
  }

  lemma {:induction false} HasKeyAt(fields: Fields, i: nat)
    requires i < |fields|
    ensures HasKey(fields, fields[i].0)
  {
    if i > 0 { HasKeyAt(fields[1..], i - 1); }
  }

  lemma {:induction false} KeyIndex(fields: Fields, key: string) returns (i: nat)
    requires HasKey(fields, key)
    ensures i < |fields| && fields[i] == (key, Get(fields, key))
  {
    if fields[0].0 == key {
      i := 0;
    } else {
      i := KeyIndex(fields[1..], key);
      i := i + 1;
    }
  }

  lemma {:induction false} GetAt(fields: Fields, i: nat)
    requires UniqueKeys(fields) && i < |fields|
    ensures Get(fields, fields[i].0) == fields[i].1
  {
    if i > 0 { GetAt(fields[1..], i - 1); }
  }

  lemma {:induction false} GetMissing(fields: Fields, key: string)
    requires !HasKey(fields, key)
    ensures Get(fields, key) == Null
  {
    if fields != [] { GetMissing(fields[1..], key); }
  }

  predicate NonBlankStr(j: Json) {
    j.Str? && !Blank(j.s)
  }

  /** What a stage declares as its decisions: `decisions`, else `transitions`. */
  function StageDecisions(payload: Fields): Json {
    var decisions := Get(payload, "decisions");
    if decisions != Null then decisions else Get(payload, "transitions")
  }

  /** The usable (decision, next stage) entries of a decisions object. */
  function UsableEntries(entries: Fields): seq<(string, string)> {
    if entries == [] then []
    else (if !Blank(entries[0].0) && NonBlankStr(entries[0].1) then [(entries[0].0, entries[0].1.s)] else [])
         + UsableEntries(entries[1..])
  }

  lemma UsableSnoc(entries: Fields, i: nat)
    requires i < |entries|
    ensures UsableEntries(entries[..i + 1]) == UsableEntries(entries[..i]) + UsableEntries([entries[i]])
  {
    UsableAppend(entries[..i], [entries[i]]);
    assert entries[..i + 1] == entries[..i] + [entries[i]];
  }

  lemma {:induction false} UsableAppend(a: Fields, b: Fields)
    ensures UsableEntries(a + b) == UsableEntries(a) + UsableEntries(b)
  {
    if a == [] {
      assert a + b == b;
    } else {
      UsableAppend(a[1..], b);
      assert (a + b)[1..] == a[1..] + b && (a + b)[0] == a[0];
      var head := if !Blank(a[0].0) && NonBlankStr(a[0].1) then [(a[0].0, a[0].1.s)] else [];
      HeadInFront(UsableEntries(a + b), head, UsableEntries(a[1..] + b), UsableEntries(a[1..]), UsableEntries(b));
    }
  }

  function StageSteps(payload: Json): seq<(string, string)> {
    if payload.Obj? && StageDecisions(payload.fields).Obj?
    then UsableEntries(StageDecisions(payload.fields).fields)
    else []
  }

  predicate IsTerminal(payload: Fields) {
    Get(payload, "is_terminal") == Bool(true)
  }

  predicate IsNoneWord(target: string) {
    Lower(target) in {"none", "null", "{{none}}"}
  }

  predicate IsIdentStart(c: char) {
    'a' <= c <= 'z' || 'A' <= c <= 'Z' || c == '_'
  }

  predicate IsIdentChar(c: char) {
    IsIdentStart(c) || '0' <= c <= '9'
  }

  /** The name inside `{{name}}`, when the whole text has that form. */
  function VariableName(target: string): Option<string> {
    if && |target| >= 5 && target[..2] == "{{" && target[|target| - 2..] == "}}"
       && IsIdentStart(target[2]) && forall i :: 2 <= i < |target| - 2 ==> IsIdentChar(target[i])
    then Some(target[2..|target| - 2])
    else None
  }

  // ---------------------------------------------------------------------
  // What a valid definition is
  // ---------------------------------------------------------------------

  /** The nodes and the skill packages that validating one form type looks things
      up in. */
  datatype World = World(dir: seq<Node>, skills: set<string>)

  /** The nodes, and the skill packages under each form type's own directory. */
  datatype Site = Site(dir: seq<Node>, skills: set<(string, string)>)

  function WorldOf(site: Site, typeKey: string): (w: World)
    ensures w.dir == site.dir && forall skill :: skill in w.skills <==> (typeKey, skill) in site.skills
  {
    World(site.dir, set p | p in site.skills && p.0 == typeKey :: p.1)
  }

  predicate TargetIsNone(target: Json) {
    target.Null? || (NonBlankStr(target) && IsNoneWord(Strip(target.s)))
  }

  predicate TargetOk(w: World, payload: Fields) {
    var target := Get(payload, "target");
    && (target.Null? || NonBlankStr(target))
    && (TargetIsNone(target) ==> IsTerminal(payload))
    && (!TargetIsNone(target) && VariableName(Strip(target.s)).None? ==> ResolveReference(w.dir, Strip(target.s)).Ok?)
  }

  predicate NeedsSkill(payload: Fields) {
    !IsTerminal(payload) || !TargetIsNone(Get(payload, "target"))
  }

  predicate SkillNamed(payload: Fields) {
    var skill := Get(payload, "required_skill");
    NeedsSkill(payload) || skill != Null ==> NonBlankStr(skill)
  }

  predicate SkillPresent(w: World, payload: Fields) {
    var skill := Get(payload, "required_skill");
    NonBlankStr(skill) ==> Strip(skill.s) in w.skills
  }

  ghost predicate DecisionsOk(stages: Fields, payload: Fields) {
    var decisions := StageDecisions(payload);
    && (decisions.Null? || decisions.Obj?)
    && (IsTerminal(payload) <==> decisions.Null? || decisions == Obj([]))
    && (decisions.Obj? ==> EntriesOk(stages, decisions.fields))
  }

  /** A named decision to a defined stage. */
  predicate EntryOk(stages: Fields, entry: (string, Json)) {
    !Blank(entry.0) && NonBlankStr(entry.1) && HasKey(stages, entry.1.s)
  }

  function StrippedKeys<T>(entries: seq<(string, T)>): (keys: seq<string>)
    ensures |keys| == |entries|
  {
    if entries == [] then [] else [Strip(entries[0].0)] + StrippedKeys(entries[1..])
  }

  lemma {:induction false} StrippedKeysAt<T>(entries: seq<(string, T)>)
    ensures forall i :: 0 <= i < |entries| ==> StrippedKeys(entries)[i] == Strip(entries[i].0)
  {
    if entries != [] { StrippedKeysAt(entries[1..]); }
  }

  ghost predicate EntriesOk(stages: Fields, entries: Fields) {
    (forall i :: 0 <= i < |entries| ==> EntryOk(stages, entries[i])) && NoDup(StrippedKeys(entries))
  }

  ghost predicate StageOk(w: World, stages: Fields, stage: (string, Json)) {
    && !Blank(stage.0)
    && stage.1.Obj?
    && TargetOk(w, stage.1.fields)
    && SkillNamed(stage.1.fields)
    && SkillPresent(w, stage.1.fields)
    && DecisionsOk(stages, stage.1.fields)
  }

  /** What the validator asks of a stage by itself, whatever nodes and skills exist. */
  ghost predicate StageSound(stages: Fields, stage: (string, Json)) {
    !Blank(stage.0) && stage.1.Obj? && DecisionsOk(stages, stage.1.fields)
  }

  ghost predicate SoundStages(stages: Fields) {
    UniqueKeys(stages) && forall i :: 0 <= i < |stages| ==> StageSound(stages, stages[i])
  }

  function FirstNamed(stages: Fields): Json {
    if stages == [] then Null else if !Blank(stages[0].0) then Str(stages[0].0) else FirstNamed(stages[1..])
  }

  /** The declared start stage, else the first stage with a name. */
  function StartStage(graph: Fields, stages: Fields): Json {
    if Get(graph, "start_stage") == Null then FirstNamed(stages) else Get(graph, "start_stage")
  }

  predicate DefinedStage(stages: Fields, stage: Json) {
    NonBlankStr(stage) && HasKey(stages, stage.s)
  }

  predicate AllowlistOk(w: World, allowlist: Json) {
    allowlist == Null ||
    (&& allowlist.Arr? && allowlist.items != []
     && forall i :: 0 <= i < |allowlist.items| ==>
          var item := allowlist.items[i];
          NonBlankStr(item) && (Strip(item.s) == "{{any}}" || ResolveReference(w.dir, Strip(item.s)).Ok?))
  }

  /** One usable step leads from stage `a` to stage `b`. */
  ghost predicate StepsTo(stages: Fields, a: string, b: string) {
    exists i :: 0 <= i < |StageSteps(Get(stages, a))| && StageSteps(Get(stages, a))[i].1 == b
  }

  ghost predicate StagePath(stages: Fields, path: seq<string>) {
    path != [] && forall i :: 1 <= i < |path| ==> StepsTo(stages, path[i - 1], path[i])
  }

  ghost predicate Reaches(stages: Fields, a: string, b: string) {
    exists path :: StagePath(stages, path) && path[0] == a && path[|path| - 1] == b
  }

  /** What publishing a stage graph requires, short of reachability. */
  ghost predicate WellFormed(w: World, typeKey: string, graph: Fields) {
    var stages := Get(graph, "stages");
    && (Get(graph, "form_type") == Null || Get(graph, "form_type") == Str(typeKey))
    && stages.Obj? && stages.fields != []
    && DefinedStage(stages.fields, StartStage(graph, stages.fields))
    && DefinedStage(stages.fields, Get(graph, "end_stage"))
    && (forall i :: 0 <= i < |stages.fields| ==> StageOk(w, stages.fields, stages.fields[i]))
    && StageSteps(Get(stages.fields, Get(graph, "end_stage").s)) == []
  }

  ghost predicate ValidStageGraph(w: World, typeKey: string, graph: Fields) {
    && WellFormed(w, typeKey, graph)
    && AllowlistOk(w, Get(graph, "initiator_allowlist"))
    && var stages := Get(graph, "stages").fields;
       forall i :: 0 <= i < |stages| ==> Reaches(stages, StartStage(graph, stages).s, stages[i].0)
  }

  /** What was accepted in any world stays sound in every other. */
  lemma ValidIsSound(w: World, typeKey: string, graph: Fields)
    requires ValidStageGraph(w, typeKey, graph) && UniqueKeys(Get(graph, "stages").fields)
    ensures SoundStages(Get(graph, "stages").fields)
  {
    var stages := Get(graph, "stages").fields;
    forall i | 0 <= i < |stages| ensures StageSound(stages, stages[i]) {
      assert StageOk(w, stages, stages[i]);
    }
  }
}
