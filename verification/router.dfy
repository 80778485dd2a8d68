/** The file router steps a form on the raw stages and finds the node to deliver
    to; the ledger steps the same form on the projected edges and finds its next
    holder. The two are written separately; here they are compared. */
module Router {
  import opened Prelude
  import opened Text
  import opened Forest
  import opened Directory
  import opened StageGraph
  import opened Projection
  import Ledger = FormLedger

  type Frontmatter = map<string, string>

  /** A ledger form: what it is bound to, who started it, and its row. */
  datatype Form = Form(typeKey: string, version: string, sender: Option<string>, entry: Ledger.Entry)

  /** Nodes and skills, the active version of each type, all definitions, all forms. */
  datatype Store = Store(
    site: Site, active: map<string, string>, graphs: map<(string, string), Json>, forms: map<string, Form>)

  datatype Refusal =
    | NoFormType | NoActiveType | GraphNotObject | NoStages | NoStart | NoEnd
    | StageUndefined | NoDecision | DecisionUndefined | NextUndefined
    | SkillRequired | SkillUnsafe | SkillMissing | FormNotFound | StaleStage | HolderMismatch
    | NotStartStage | NotAllowed | InitiatorUnknown | TargetMissing | TargetUnknown(reason: RefError)

  function OptionalStr(fm: Frontmatter, key: string): Option<string> {
    if key in fm && !Blank(fm[key]) then Some(Strip(fm[key])) else None
  }

  function OrElse(a: Option<string>, b: Option<string>): Option<string> {
    if a.Some? then a else b
  }

  // ---------------------------------------------------------------------
  // The router's side
  // ---------------------------------------------------------------------

  function FormTypeOf(fm: Frontmatter): Option<string> {
    var named := OptionalStr(fm, "form_type");
    if named.Some? then named
    else
      var legacy := OptionalStr(fm, "type");
      if legacy.Some? && Lower(legacy.value) == "message" then Some("message") else legacy
  }

  datatype Loaded = Loaded(start: string, end: string, stages: Fields, allowlist: Json)

  function FirstTerminal(stages: Fields): Json {
    if stages == [] then Null
    else if stages[0].1.Obj? && IsTerminal(stages[0].1.fields) then Str(stages[0].0)
    else FirstTerminal(stages[1..])
  }

  /** The stage graph as the router reads it; the names of its start and end
      stage are stripped, the stages themselves are not. */
  function LoadStageGraph(graph: Json): Result<Loaded, Refusal> {
    if !graph.Obj? then Err(GraphNotObject)
    else
      var stages := Get(graph.fields, "stages");
      if !stages.Obj? || stages.fields == [] then Err(NoStages)
      else
        var named := Get(graph.fields, "start_stage");
        if !NonBlankStr(named) && stages.fields[0].0 == "" then Err(NoStart)
        else
          var start := if NonBlankStr(named) then named.s else stages.fields[0].0;
          var declared := Get(graph.fields, "end_stage");
          var end := if NonBlankStr(declared) then declared else FirstTerminal(stages.fields);
          if !NonBlankStr(end) then Err(NoEnd)
          else Ok(Loaded(Strip(start), Strip(end.s), stages.fields, Get(graph.fields, "initiator_allowlist")))
  }

  /** Where a decision leads, read off the raw stage. */
  function RawStep(stages: Fields, name: string, key: string): Option<string> {
    var payload := Get(stages, name);
    if payload.Obj? && StageDecisions(payload.fields).Obj? then
      var next := Get(StageDecisions(payload.fields).fields, key);
      if NonBlankStr(next) then Some(next.s) else None
    else None
  }

  function NamedSkill(payload: Fields): Option<string> {
    var skill := Get(payload, "required_skill");
    if NonBlankStr(skill) then Some(Strip(skill.s)) else None
  }

  /** A skill's name must stay below the skills directory: relative, without "..". */
  predicate SafeSkillName(name: string) {
    !("/" <= name) && ".." !in SplitOn(name, '/')
  }

  /** Entering a stage needs the skill it names, and a name unless nobody will hold the form. */
  function CheckSkill(w: World, payload: Json): Result<(), Refusal> {
    if !payload.Obj? then Err(SkillRequired)
    else
      var skill := NamedSkill(payload.fields);
      var target := Get(payload.fields, "target");
      var noTarget := target.Null? || (target.Str? && IsNoneWord(Strip(target.s)));
      if (!IsTerminal(payload.fields) || !noTarget) && skill.None? then Err(SkillRequired)
      else if skill.Some? && !SafeSkillName(skill.value) then Err(SkillUnsafe)
      else if skill.Some? && skill.value !in w.skills then Err(SkillMissing)
      else Ok(())
  }

  predicate Held(e: Ledger.Entry, actor: string) {
    e.holder.Some? && e.holder.value != "" && e.holder.value != actor
  }

  /** What an allowlist item says. */
  datatype Reading = Unusable | Anyone | Named(id: string)

  function ReadItem(dir: seq<Node>, item: Json): Reading {
    if !NonBlankStr(item) then Unusable
    else if Strip(item.s) == "{{any}}" then Anyone
    else
      var node := ResolveReference(dir, Strip(item.s));
      if node.Err? then Unusable else Named(node.value.id)
  }

  function Readings(read: Json -> Reading, items: seq<Json>): (r: seq<Reading>)
    ensures |r| == |items| && forall i :: 0 <= i < |items| ==> r[i] == read(items[i])
  {
    seq(|items|, i requires 0 <= i < |items| => read(items[i]))
  }

  ghost predicate AnyoneFirst(readings: seq<Reading>) {
    exists k :: 0 <= k < |readings| && readings[k] == Anyone && Unusable !in readings[..k]
  }

  /** Who may start a form: anyone without a list, or once `{{any}}` is met
      before anything unusable, or whoever a fully usable list names. */
  ghost predicate Permitted(dir: seq<Node>, allowlist: Json, senderId: string) {
    allowlist == Null ||
    (&& allowlist.Arr?
     && var readings := Readings(item => ReadItem(dir, item), allowlist.items);
        AnyoneFirst(readings) || (Unusable !in readings && Named(senderId) in readings))
  }

  /** The list read from the front; `found` says whether the sender was named. */
  predicate Admits(readings: seq<Reading>, senderId: string, found: bool) {
    if readings == [] then found
    else
      match readings[0]
      case Unusable => false
      case Anyone => true
      case Named(id) => Admits(readings[1..], senderId, found || id == senderId)
  }

  lemma AnyoneShifted(readings: seq<Reading>)
    requires readings != []
    ensures AnyoneFirst(readings) <==>
              readings[0] == Anyone || (readings[0] != Unusable && AnyoneFirst(readings[1..]))
  {
    var rest := readings[1..];
    if readings[0] == Anyone {
      assert Unusable !in readings[..0];
    } else if AnyoneFirst(readings) {
      var k :| 0 <= k < |readings| && readings[k] == Anyone && Unusable !in readings[..k];
      assert readings[..k][0] == readings[0] && readings[..k][1..] == rest[..k - 1];
      assert rest[k - 1] == Anyone;
    } else if AnyoneFirst(rest) {
      var k :| 0 <= k < |rest| && rest[k] == Anyone && Unusable !in rest[..k];
      assert readings[..k + 1] == [readings[0]] + rest[..k] && readings[k + 1] == Anyone;
    }
  }

  lemma {:induction false} AdmitsIff(readings: seq<Reading>, senderId: string, found: bool)
    ensures Admits(readings, senderId, found)
       <==> AnyoneFirst(readings) || (Unusable !in readings && (found || Named(senderId) in readings))
    decreases |readings|
  {
    if readings != [] {
      assert readings == [readings[0]] + readings[1..];
      AnyoneShifted(readings);
      if readings[0].Named? { AdmitsIff(readings[1..], senderId, found || readings[0].id == senderId); }
    }
  }

  method IsAllowedInitiator(dir: seq<Node>, allowlist: Json, senderId: string) returns (allowed: bool)
    ensures allowed <==> Permitted(dir, allowlist, senderId)
  {
    if allowlist == Null {
      return true;
    }
    if !allowlist.Arr? || allowlist.items == [] {
      return false;
    }
    var read := item => ReadItem(dir, item);
    AdmitsIff(Readings(read, allowlist.items), senderId, false);
    allowed := ScanAllowlist(read, allowlist.items, senderId);
  }

  method ScanAllowlist(read: Json -> Reading, items: seq<Json>, senderId: string) returns (allowed: bool)
    ensures allowed == Admits(Readings(read, items), senderId, false)
  {
    ghost var readings := Readings(read, items);
    var ids: set<string> := {};
    var i := 0;
    assert readings[0..] == readings;
    while i < |items|
      invariant 0 <= i <= |items|
      invariant Admits(readings[i..], senderId, senderId in ids) == Admits(readings, senderId, false)
    {
      assert readings[i..][0] == readings[i] && readings[i..][1..] == readings[i + 1..];
      var reading := read(items[i]);
      if reading.Unusable? {
        return false;
      }
      if reading.Anyone? {
        return true;
      }
      ids := ids + {reading.id};
      i := i + 1;
    }
    allowed := senderId in ids;
  }

  function FindForm(s: Store, fm: Frontmatter): Result<Option<Form>, Refusal> {
    var id := OptionalStr(fm, "form_id");
    if id.None? then Ok(None) else if id.value in s.forms then Ok(Some(s.forms[id.value])) else Err(FormNotFound)
  }

  /** An existing form must be at this stage and not held by someone else; a new
      one must begin at the start stage, by someone permitted. */
  ghost function CheckForm(dir: seq<Node>, g: Loaded, existing: Option<Form>, stage: string, sender: Node):
    Result<(), Refusal>
  {
    match existing
    case Some(form) =>
      if form.entry.status != stage then Err(StaleStage)
      else if Held(form.entry, sender.id) then Err(HolderMismatch)
      else Ok(())
    case None =>
      if stage != g.start then Err(NotStartStage)
      else if !Permitted(dir, g.allowlist, sender.id) then Err(NotAllowed)
      else Ok(())
  }

  function InitiatorId(dir: seq<Node>, fm: Frontmatter, existing: Option<Form>, sender: Node): Result<string, Refusal> {
    if existing.Some? && existing.value.sender.Some? && existing.value.sender.value != "" then
      Ok(existing.value.sender.value)
    else
      var byId, byName := OptionalStr(fm, "initiator_node_id"), OptionalStr(fm, "initiator");
      if byId.Some? then
        if GetNode(dir, byId.value).Some? then Ok(byId.value) else Err(InitiatorUnknown)
      else if byName.Some? then
        var node := ResolveReference(dir, byName.value);
        if node.Ok? then Ok(node.value.id) else Err(InitiatorUnknown)
      else Ok(sender.id)
  }

  /** The node to deliver to, and the routing fields its choice sets. */
  datatype Delivery = Delivery(node: Option<Node>, fields: map<string, string>)

  function DeliverTo(dir: seq<Node>, reference: Option<string>, key: string): Result<Delivery, Refusal> {
    if reference.None? then Err(TargetMissing)
    else
      var node := ResolveReference(dir, reference.value);
      if node.Err? then Err(TargetUnknown(node.error)) else Ok(Delivery(Some(node.value), map[key := node.value.id]))
  }

  function ResolveTarget(dir: seq<Node>, target: Json, fm: Frontmatter, initiator: string): Result<Delivery, Refusal> {
    if !NonBlankStr(target) then Ok(Delivery(None, map[]))
    else
      var t := Strip(target.s);
      if IsNoneWord(t) then Ok(Delivery(None, map[]))
      else if t == "{{initiator}}" then
        var node := GetNode(dir, initiator);
        if node.None? then Err(InitiatorUnknown)
        else Ok(Delivery(Some(node.value), map["initiator_node_id" := node.value.id]))
      else if t == "{{any}}" then
        DeliverTo(dir, OrElse(OptionalStr(fm, "target_node_id"), OptionalStr(fm, "target")), "target_node_id")
      else if VariableName(t).Some? then
        var key := VariableName(t).value + "_node_id";
        DeliverTo(dir, OrElse(OptionalStr(fm, key), OptionalStr(fm, VariableName(t).value)), key)
      else
        var node := ResolveReference(dir, t);
        if node.Err? then Err(TargetUnknown(node.error)) else Ok(Delivery(Some(node.value), map[]))
  }

  /** What the router tells the ledger. */
  function Context(initiator: string, d: Delivery): map<string, string> {
    var context := map["initiator_node_id" := initiator] + d.fields;
    if d.node.Some? && "target_node_id" !in context then context["target_node_id" := d.node.value.id] else context
  }

  datatype Route = Route(
    form: Form, stage: string, decision: string, rawNext: string, next: string, node: Option<Node>,
    context: map<string, string>)

  function NewForm(typeKey: string, version: string, stage: string, sender: Node): Form {
    Form(typeKey, version, Some(sender.id), Ledger.Created(stage, Some(sender.id), Some(sender.id), None).entry)
  }

  function DecisionKey(fm: Frontmatter): Option<string> {
    OrElse(OptionalStr(fm, "decision"), OptionalStr(fm, "transition"))
  }

  function CurrentStage(fm: Frontmatter, start: string): string {
    OrElse(OptionalStr(fm, "stage"), Some(start)).value
  }

  /** The guards on definition, stage, skill, form and people that a parsed file
      passes on its way to a node, in order. */
  ghost function RouteFile(s: Store, fm: Frontmatter, sender: Node): Result<Route, Refusal> {
    var typeKey := FormTypeOf(fm);
    if typeKey.None? then Err(NoFormType)
    else if typeKey.value !in s.active || (typeKey.value, s.active[typeKey.value]) !in s.graphs then Err(NoActiveType)
    else
      var version := s.active[typeKey.value];
      var g :- LoadStageGraph(s.graphs[(typeKey.value, version)]);
      var stage, key := CurrentStage(fm, g.start), DecisionKey(fm);
      if !HasKey(g.stages, stage) then Err(StageUndefined)
      else if key.None? then Err(NoDecision)
      else
        var raw := RawStep(g.stages, stage, key.value);
        if raw.None? then Err(DecisionUndefined)
        else if !HasKey(g.stages, Strip(raw.value)) then Err(NextUndefined)
        else RouteStep(s, fm, sender, g, typeKey.value, version, stage, key.value, raw.value)
  }

  ghost function RouteStep(s: Store, fm: Frontmatter, sender: Node, g: Loaded, typeKey: string, version: string,
                           stage: string, key: string, raw: string): Result<Route, Refusal>
  {
    var dir := s.site.dir;
    var next := Strip(raw);
    var _ :- CheckSkill(WorldOf(s.site, typeKey), Get(g.stages, next));
    var existing :- FindForm(s, fm);
    var _ :- CheckForm(dir, g, existing, stage, sender);
    var initiator :- InitiatorId(dir, fm, existing, sender);
    var delivery :- ResolveTarget(dir, StageTarget(g.stages, next), fm, initiator);
    var form := if existing.Some? then existing.value else NewForm(typeKey, version, stage, sender);
    Ok(Route(form, stage, key, raw, next, delivery.node, Context(initiator, delivery)))
  }

  // ---------------------------------------------------------------------
  // The ledger's side
  // ---------------------------------------------------------------------

  datatype LedgerError =
    | NoActor | ActorUnknown | FormUnbound | ActorNotHolder | DefinitionMissing | NotAStageGraph
    | EdgeUnresolved(reason: EdgeError) | HolderUnknown

  function RequireNode(dir: seq<Node>, id: string): Result<Option<string>, LedgerError> {
    if GetNode(dir, id).Some? then Ok(Some(id)) else Err(HolderUnknown)
  }

  function ResolveNextHolder(dir: seq<Node>, rule: HolderRule, context: map<string, string>):
    Result<Option<string>, LedgerError>
  {
    match rule
    case NoHolder => Ok(None)
    case FieldRef(field) => if field in context then RequireNode(dir, context[field]) else Ok(None)
    case StaticNode(id) => RequireNode(dir, id)
    case StaticName(name) =>
      var node := UniqueByName(dir, Strip(name));
      if node.Ok? then RequireNode(dir, node.value.id) else Err(HolderUnknown)
  }

  /** The change a transition request commits, or why it is refused. */
  function TransitionForm(s: Store, form: Form, decision: string, actor: string, context: map<string, string>):
    Result<Ledger.Change, LedgerError>
  {
    var actorId := Strip(actor);
    var bound := (form.typeKey, form.version);
    if actorId == "" then Err(NoActor)
    else if GetNode(s.site.dir, actorId).None? then Err(ActorUnknown)
    else if form.typeKey == "" || form.version == "" then Err(FormUnbound)
    else if Held(form.entry, actorId) then Err(ActorNotHolder)
    else if bound !in s.graphs then Err(DefinitionMissing)
    else if !s.graphs[bound].Obj? || !Get(s.graphs[bound].fields, "stages").Obj? then Err(NotAStageGraph)
    else
      var edge := ResolveEdge(Project(Get(s.graphs[bound].fields, "stages").fields), form.entry.status,
                              Some(decision), None);
      if edge.Err? then Err(EdgeUnresolved(edge.error))
      else
        var holder :- ResolveNextHolder(s.site.dir, edge.value.rule, context);
        Ok(Ledger.Change(form.entry.status, edge.value.to, edge.value.decision, actorId, holder))
  }

  // ---------------------------------------------------------------------
  // They agree
  // ---------------------------------------------------------------------

  function IdOf(node: Option<Node>): Option<string> {
    if node.Some? then Some(node.value.id) else None
  }

  lemma KnownNode(dir: seq<Node>, n: Node)
    requires ValidDirectory(dir) && n in dir
    ensures RequireNode(dir, n.id) == Ok(Some(n.id))
  {
    GetNodeById(dir, n);
  }

  /** A routing field the router sets is the one the holder rule reads. */
  lemma FieldAgrees(dir: seq<Node>, initiator: string, d: Delivery, key: string)
    requires ValidDirectory(dir) && d.node.Some? && d.node.value in dir && d.fields == map[key := d.node.value.id]
    ensures ResolveNextHolder(dir, FieldRef(key), Context(initiator, d)) == Ok(Some(d.node.value.id))
  {
    KnownNode(dir, d.node.value);
    assert Context(initiator, d)[key] == d.node.value.id;
  }

  /** An id or a unique name in the definition means the same node to both. */
  lemma StaticAgrees(dir: seq<Node>, t: string, context: map<string, string>)
    requires ValidDirectory(dir) && Trimmed(t) && t != "" && ResolveReference(dir, t).Ok?
    ensures ResolveNextHolder(dir, if LooksLikeUuid(t) then StaticNode(t) else StaticName(t), context)
         == Ok(Some(ResolveReference(dir, t).value.id))
  {
    ResolveTrimmed(dir, t);
    StripTrimmed(t);
    KnownNode(dir, ResolveReference(dir, t).value);
  }

  /** For every form of target, the ledger's holder rule finds the node the
      router delivers to. */
  lemma TargetsAgree(dir: seq<Node>, target: Json, fm: Frontmatter, initiator: string)
    requires ValidDirectory(dir)
    requires ResolveTarget(dir, target, fm, initiator).Ok?
    ensures var d := ResolveTarget(dir, target, fm, initiator).value;
            ResolveNextHolder(dir, HolderRuleOf(target), Context(initiator, d)) == Ok(IdOf(d.node))
  {
    var d := ResolveTarget(dir, target, fm, initiator).value;
    if d.node.Some? {
      var t := Strip(target.s);
      StripTrimmed(target.s);
      if t == "{{initiator}}" {
        FieldAgrees(dir, initiator, d, "initiator_node_id");
      } else if t == "{{any}}" {
        FieldAgrees(dir, initiator, d, "target_node_id");
      } else if VariableName(t).Some? {
        FieldAgrees(dir, initiator, d, VariableName(t).value + "_node_id");
      } else {
        StaticAgrees(dir, t, Context(initiator, d));
      }
    }
  }

  /** The ledger finds one edge for a decision of the stage, and only one. */
  predicate SingleStep(stages: Fields, name: string, key: string) {
    |WithKey(StageSteps(Get(stages, name)), key)| == 1
  }

  lemma SoundIsSingle(stages: Fields, name: string, key: string)
    requires SoundStages(stages) && HasKey(stages, name) && Trimmed(key) && key != ""
    requires RawStep(stages, name, key).Some?
    ensures SingleStep(stages, name, key)
  {
    var steps := StageSteps(Get(stages, name));
    StepOfRaw(stages, name, key);
    StageStepsValid(stages, name);
    OneWithKey(steps, key);
    var i :| 0 <= i < |steps| && steps[i] == (key, RawStep(stages, name, key).value);
    WithKeyHas(steps, i);
    StripTrimmed(key);
  }

  /** A step the router finds on the raw stage is among the usable steps the
      ledger compiles. */
  lemma StepOfRaw(stages: Fields, name: string, key: string)
    requires RawStep(stages, name, key).Some? && Trimmed(key) && key != ""
    ensures (key, RawStep(stages, name, key).value) in StageSteps(Get(stages, name))
  {
    var entries := StageDecisions(Get(stages, name).fields).fields;
    StripTrimmed(key);
    UsableHas(entries, key);
  }

  lemma {:induction false} UsableHas(entries: Fields, key: string)
    requires !Blank(key) && NonBlankStr(Get(entries, key))
    ensures (key, Get(entries, key).s) in UsableEntries(entries)
  {
    if entries[0].0 != key { UsableHas(entries[1..], key); }
  }

  /** The ledger takes the router's step exactly when no other decision of the
      stage strips to the same key. */
  lemma RawStepIsEdgeIff(stages: Fields, name: string, key: string)
    requires UniqueKeys(stages) && Trimmed(key) && key != "" && RawStep(stages, name, key).Some?
    ensures ResolveEdge(Project(stages), name, Some(key), None)
         == if SingleStep(stages, name, key) then Ok(StepEdge(stages, name, (key, RawStep(stages, name, key).value)))
            else Err(Ambiguous)
  {
    StepOfRaw(stages, name, key);
    StripTrimmed(key);
    StepResolvesIff(stages, name, (key, RawStep(stages, name, key).value));
  }

  /** All decision keys and next-stage names of a stage are written without
      surrounding blanks. */
  ghost predicate TrimmedStage(stages: Fields, name: string) {
    forall i :: 0 <= i < |StageSteps(Get(stages, name))| ==>
      Trimmed(StageSteps(Get(stages, name))[i].0) && Trimmed(StageSteps(Get(stages, name))[i].1)
  }

  /** On a trimmed stage, stepping the raw stages and looking up the edge list
      give the same next stage, for every key, in both directions. */
  lemma RawStepMatchesProjection(stages: Fields, name: string, key: string)
    requires SoundStages(stages) && HasKey(stages, name) && TrimmedStage(stages, name) && Trimmed(key) && key != ""
    ensures var edge := ResolveEdge(Project(stages), name, Some(key), None);
            && (edge.Ok? <==> RawStep(stages, name, key).Some?)
            && (edge.Ok? ==> RawStep(stages, name, key) == Some(edge.value.to) && Trimmed(edge.value.to))
  {
    if RawStep(stages, name, key).Some? {
      RawStepIsEdgeIff(stages, name, key);
      SoundIsSingle(stages, name, key);
      StepOfRaw(stages, name, key);
    } else {
      DecisionsResolve(stages, name, key);
      NoRawStep(stages, name, key);
    }
  }

  lemma NoRawStep(stages: Fields, name: string, key: string)
    requires SoundStages(stages) && HasKey(stages, name)
    requires forall step :: step in StageSteps(Get(stages, name)) ==> Trimmed(step.0)
    requires RawStep(stages, name, key).None?
    ensures key !in StrippedKeys(StageSteps(Get(stages, name)))
  {
    var k := KeyIndex(stages, name);
    assert StageSound(stages, stages[k]);
    var steps := StageSteps(stages[k].1);
    StrippedKeysAt(steps);
    forall i | 0 <= i < |steps| ensures StrippedKeys(steps)[i] != key {
      var entries := StageDecisions(stages[k].1.fields).fields;
      AllUsable(stages, entries);
      StrippedKeysAt(entries);
      StripTrimmed(steps[i].0);
      assert EntryOk(stages, entries[i]);
      assert UniqueKeys(entries);
      GetAt(entries, i);
    }
  }

  /** A routed form is bound to the definition the router stepped on. */
  predicate BoundToActive(s: Store, fm: Frontmatter, form: Form) {
    && FormTypeOf(fm) == Some(form.typeKey) && form.typeKey in s.active && s.active[form.typeKey] == form.version
    && form.version != ""
  }

  /** The stages a form's definition gives it. */
  function BoundStages(s: Store, form: Form): Fields {
    var bound := (form.typeKey, form.version);
    if bound in s.graphs && s.graphs[bound].Obj? && Get(s.graphs[bound].fields, "stages").Obj?
    then Get(s.graphs[bound].fields, "stages").fields else []
  }

  /** The ledger accepts what was routed, at the same stage, for the same node. */
  predicate LedgerAgrees(s: Store, sender: Node, r: Route) {
    TransitionForm(s, r.form, r.decision, sender.id, r.context)
    == Ok(Ledger.Change(r.stage, r.next, r.decision, sender.id, IdOf(r.node)))
  }

  lemma RouteFacts(s: Store, fm: Frontmatter, sender: Node)
    requires RouteFile(s, fm, sender).Ok? && BoundToActive(s, fm, RouteFile(s, fm, sender).value.form)
    ensures Routed(s, fm, sender, RouteFile(s, fm, sender).value)
  {
    var typeKey := FormTypeOf(fm).value;
    var g := LoadStageGraph(s.graphs[(typeKey, s.active[typeKey])]).value;
    DecisionTrimmed(fm);
    var existing := FindForm(s, fm).value;
    var initiator := InitiatorId(s.site.dir, fm, existing, sender).value;
    var target := StageTarget(g.stages, RouteFile(s, fm, sender).value.next);
    var delivery := ResolveTarget(s.site.dir, target, fm, initiator).value;
    assert ResolveTarget(s.site.dir, target, fm, initiator) == Ok(delivery);
  }

  lemma DecisionTrimmed(fm: Frontmatter)
    ensures DecisionKey(fm).Some? ==> Trimmed(DecisionKey(fm).value) && DecisionKey(fm).value != ""
  {
    if "decision" in fm { StripTrimmed(fm["decision"]); }
    if "transition" in fm { StripTrimmed(fm["transition"]); }
  }

  /** What passing the guards says about a route. */
  ghost predicate Routed(s: Store, fm: Frontmatter, sender: Node, r: Route) {
    var stages, bound := BoundStages(s, r.form), (r.form.typeKey, r.form.version);
    && bound in s.graphs && s.graphs[bound].Obj? && Get(s.graphs[bound].fields, "stages") == Obj(stages)
    && HasKey(stages, r.stage) && Trimmed(r.decision) && r.decision != ""
    && RawStep(stages, r.stage, r.decision) == Some(r.rawNext) && r.next == Strip(r.rawNext)
    && r.form.entry.status == r.stage && !Held(r.form.entry, sender.id)
    && exists initiator, d ::
         && ResolveTarget(s.site.dir, StageTarget(stages, r.next), fm, initiator) == Ok(d)
         && r.node == d.node && r.context == Context(initiator, d)
  }

  /** The ledger's answer once its edge is known. */
  lemma TransitionAlong(s: Store, form: Form, decision: string, sender: Node, context: map<string, string>, raw: string)
    requires ValidDirectory(s.site.dir) && sender in s.site.dir && !Held(form.entry, sender.id)
    requires form.typeKey != "" && form.version != "" && (form.typeKey, form.version) in s.graphs
    requires var graph := s.graphs[(form.typeKey, form.version)]; graph.Obj? && Get(graph.fields, "stages").Obj?
    requires ResolveEdge(Project(BoundStages(s, form)), form.entry.status, Some(decision), None)
             == Ok(StepEdge(BoundStages(s, form), form.entry.status, (decision, raw)))
    ensures var rule := HolderRuleOf(StageTarget(BoundStages(s, form), raw));
            var holder := ResolveNextHolder(s.site.dir, rule, context);
            TransitionForm(s, form, decision, sender.id, context)
            == if holder.Err? then Err(holder.error)
               else Ok(Ledger.Change(form.entry.status, raw, Strip(decision), sender.id, holder.value))
  {
    HexIsNoSpace(sender.id);
    StripTrimmed(sender.id);
    GetNodeById(s.site.dir, sender);
  }

  /** For every file that passes the router's guards, whatever the definition:
      the ledger accepts the transition, moves to the routed stage and gives the
      form to the node delivered to, exactly when the next stage's name is
      written without surrounding blanks and no other decision of the stage
      strips to the same key. */
  lemma RouterAndLedgerAgreeIff(s: Store, fm: Frontmatter, sender: Node)
    requires ValidDirectory(s.site.dir) && sender in s.site.dir
    requires RouteFile(s, fm, sender).Ok?
    requires BoundToActive(s, fm, RouteFile(s, fm, sender).value.form)
    requires UniqueKeys(BoundStages(s, RouteFile(s, fm, sender).value.form))
    ensures var r := RouteFile(s, fm, sender).value;
            LedgerAgrees(s, sender, r)
            <==> Trimmed(r.rawNext) && SingleStep(BoundStages(s, r.form), r.stage, r.decision)
  {
    var r := RouteFile(s, fm, sender).value;
    RouteFacts(s, fm, sender);
    FormTypeNamed(fm);
    RawStepIsEdgeIff(BoundStages(s, r.form), r.stage, r.decision);
    if SingleStep(BoundStages(s, r.form), r.stage, r.decision) {
      AgreementOf(s, fm, sender, r);
    }
  }

  lemma AgreementOf(s: Store, fm: Frontmatter, sender: Node, r: Route)
    requires ValidDirectory(s.site.dir) && sender in s.site.dir && Routed(s, fm, sender, r)
    requires r.form.typeKey != "" && r.form.version != ""
    requires ResolveEdge(Project(BoundStages(s, r.form)), r.stage, Some(r.decision), None)
             == Ok(StepEdge(BoundStages(s, r.form), r.stage, (r.decision, r.rawNext)))
    ensures LedgerAgrees(s, sender, r) <==> Trimmed(r.rawNext)
  {
    var stages := BoundStages(s, r.form);
    TransitionAlong(s, r.form, r.decision, sender, r.context, r.rawNext);
    var initiator, d :| && ResolveTarget(s.site.dir, StageTarget(stages, r.next), fm, initiator) == Ok(d)
                        && r.node == d.node && r.context == Context(initiator, d);
    TargetsAgree(s.site.dir, StageTarget(stages, r.next), fm, initiator);
    StripTrimmed(r.rawNext);
    StripTrimmed(r.decision);
  }

  /** For a definition the validator once accepted, in whatever world, the name
      of the next stage alone decides. */
  lemma AgreeOnAcceptedIff(s: Store, fm: Frontmatter, sender: Node)
    requires ValidDirectory(s.site.dir) && sender in s.site.dir
    requires RouteFile(s, fm, sender).Ok?
    requires BoundToActive(s, fm, RouteFile(s, fm, sender).value.form)
    requires SoundStages(BoundStages(s, RouteFile(s, fm, sender).value.form))
    ensures LedgerAgrees(s, sender, RouteFile(s, fm, sender).value)
       <==> Trimmed(RouteFile(s, fm, sender).value.rawNext)
  {
    var r := RouteFile(s, fm, sender).value;
    RouterAndLedgerAgreeIff(s, fm, sender);
    RouteFacts(s, fm, sender);
    SoundIsSingle(BoundStages(s, r.form), r.stage, r.decision);
  }

  lemma FormTypeNamed(fm: Frontmatter)
    ensures FormTypeOf(fm) != Some("")
  {
  }

  // ---------------------------------------------------------------------
  // When a valid definition is at fault
  // ---------------------------------------------------------------------

  /** Refusals that blame the definition rather than the file, the form or the
      people: it cannot be loaded or stepped on, or the file names no stage, or
      names a stage or decision that the definition has but for blanks around it. */
  predicate BlamesDefinition(fm: Frontmatter, g: Loaded, e: Refusal) {
    var stage, key := CurrentStage(fm, g.start), DecisionKey(fm);
    || e.GraphNotObject? || e.NoStages? || e.NoStart? || e.NoEnd? || e.NextUndefined? || e.SkillRequired?
    || e.SkillUnsafe? || e.SkillMissing?
    || (e.StageUndefined? && (OptionalStr(fm, "stage").None? || stage in StrippedKeys(g.stages)))
    || (e.DecisionUndefined? && key.Some? && key.value in StrippedKeys(StageSteps(Get(g.stages, stage))))
  }

  lemma ValidGraphLoads(w: World, typeKey: string, graph: Fields)
    requires ValidStageGraph(w, typeKey, graph)
    ensures LoadStageGraph(Obj(graph)).Ok?
    ensures var g := LoadStageGraph(Obj(graph)).value;
            && g.stages == Get(graph, "stages").fields
            && g.start == Strip(StartStage(graph, g.stages).s) && HasKey(g.stages, StartStage(graph, g.stages).s)
  {
    var stages := Get(graph, "stages").fields;
    assert StageOk(w, stages, stages[0]);
    StripTrimmed(stages[0].0);
  }

  /** A stage that names a skill outside the skills directory. */
  predicate NamesUnsafeSkill(payload: Json) {
    payload.Obj? && NamedSkill(payload.fields).Some? && !SafeSkillName(NamedSkill(payload.fields).value)
  }

  lemma ValidStageSkill(w: World, typeKey: string, graph: Fields, name: string)
    requires ValidStageGraph(w, typeKey, graph) && HasKey(Get(graph, "stages").fields, name)
    ensures var payload := Get(Get(graph, "stages").fields, name);
            CheckSkill(w, payload) == if NamesUnsafeSkill(payload) then Err(SkillUnsafe) else Ok(())
  {
    var stages := Get(graph, "stages").fields;
    var k := KeyIndex(stages, name);
    assert StageOk(w, stages, stages[k]);
  }

  /** The file is at a stage that is not defined under its stripped name. */
  predicate StageHidden(fm: Frontmatter, g: Loaded) {
    var stage := CurrentStage(fm, g.start);
    !HasKey(g.stages, stage) && (OptionalStr(fm, "stage").None? || stage in StrippedKeys(g.stages))
  }

  /** It takes a decision that its stage does not have under its stripped name. */
  predicate DecisionHidden(fm: Frontmatter, g: Loaded) {
    var stage, key := CurrentStage(fm, g.start), DecisionKey(fm);
    && HasKey(g.stages, stage) && key.Some? && RawStep(g.stages, stage, key.value).None?
    && key.value in StrippedKeys(StageSteps(Get(g.stages, stage)))
  }

  /** Its step leads to a stage that is not defined under its stripped name, or
      that names an unsafe skill. */
  predicate EntersBadStage(fm: Frontmatter, g: Loaded) {
    var stage, key := CurrentStage(fm, g.start), DecisionKey(fm);
    && HasKey(g.stages, stage) && key.Some? && RawStep(g.stages, stage, key.value).Some?
    && var next := Strip(RawStep(g.stages, stage, key.value).value);
       !HasKey(g.stages, next) || NamesUnsafeSkill(Get(g.stages, next))
  }

  /** What the validator accepts, the router can load, step on and equip, but for
      two things: it strips the names of stages and decisions where the validator
      takes them as written, and it asks where a skill's name leads. The
      definition is why a file is refused if and only if one of these is met. */
  lemma DefinitionBlamedIff(s: Store, fm: Frontmatter, sender: Node, typeKey: string, graph: Fields)
    requires FormTypeOf(fm) == Some(typeKey) && typeKey in s.active
    requires (typeKey, s.active[typeKey]) in s.graphs && s.graphs[(typeKey, s.active[typeKey])] == Obj(graph)
    requires ValidStageGraph(WorldOf(s.site, typeKey), typeKey, graph)
    ensures LoadStageGraph(Obj(graph)).Ok?
    ensures var g := LoadStageGraph(Obj(graph)).value;
            (RouteFile(s, fm, sender).Err? && BlamesDefinition(fm, g, RouteFile(s, fm, sender).error))
            <==> StageHidden(fm, g) || DecisionHidden(fm, g) || EntersBadStage(fm, g)
  {
    var w := WorldOf(s.site, typeKey);
    ValidGraphLoads(w, typeKey, graph);
    var g := LoadStageGraph(Obj(graph)).value;
    var stage, key := CurrentStage(fm, g.start), DecisionKey(fm);
    if HasKey(g.stages, stage) && key.Some? && RawStep(g.stages, stage, key.value).Some? {
      var raw := RawStep(g.stages, stage, key.value).value;
      if HasKey(g.stages, Strip(raw)) {
        ValidStageSkill(w, typeKey, graph, Strip(raw));
        StepBlamesIff(s, fm, sender, g, typeKey, s.active[typeKey], stage, key.value, raw);
      }
    }
  }

  lemma FormNeverBlames(s: Store, fm: Frontmatter, g: Loaded, existing: Option<Form>, stage: string, sender: Node)
    ensures FindForm(s, fm).Err? ==> !BlamesDefinition(fm, g, FindForm(s, fm).error)
    ensures var r := CheckForm(s.site.dir, g, existing, stage, sender); r.Err? ==> !BlamesDefinition(fm, g, r.error)
    ensures var r := InitiatorId(s.site.dir, fm, existing, sender); r.Err? ==> !BlamesDefinition(fm, g, r.error)
  {
  }

  lemma TargetNeverBlames(dir: seq<Node>, target: Json, fm: Frontmatter, g: Loaded, initiator: string)
    ensures var r := ResolveTarget(dir, target, fm, initiator); r.Err? ==> !BlamesDefinition(fm, g, r.error)
  {
  }

  lemma StepBlamesIff(s: Store, fm: Frontmatter, sender: Node, g: Loaded, typeKey: string, version: string,
                      stage: string, key: string, raw: string)
    requires var skill := CheckSkill(WorldOf(s.site, typeKey), Get(g.stages, Strip(raw)));
             skill.Ok? || skill == Err(SkillUnsafe)
    ensures var r := RouteStep(s, fm, sender, g, typeKey, version, stage, key, raw);
            (r.Err? && BlamesDefinition(fm, g, r.error))
            <==> CheckSkill(WorldOf(s.site, typeKey), Get(g.stages, Strip(raw))).Err?
  {
    var found := FindForm(s, fm);
    FormNeverBlames(s, fm, g, None, stage, sender);
    if found.Ok? {
      FormNeverBlames(s, fm, g, found.value, stage, sender);
      var initiator := InitiatorId(s.site.dir, fm, found.value, sender);
      if initiator.Ok? {
        TargetNeverBlames(s.site.dir, StageTarget(g.stages, Strip(raw)), fm, g, initiator.value);
      }
    }
  }

  /** What publishing would have to ask for as well: a stage's stripped name is a
      stage, and a stage that files can name has trimmed decisions, none of which
      leads to a stage with an unsafe skill. */
  ghost predicate Routable(stages: Fields) {
    && (forall i :: 0 <= i < |stages| ==> HasKey(stages, Strip(stages[i].0)))
    && (forall name :: HasKey(stages, name) && Trimmed(name) ==> StepsRoutable(stages, StageSteps(Get(stages, name))))
  }

  ghost predicate StepsRoutable(stages: Fields, steps: seq<(string, string)>) {
    forall step :: step in steps ==> Trimmed(step.0) && !NamesUnsafeSkill(Get(stages, Strip(step.1)))
  }

  lemma CurrentTrimmed(fm: Frontmatter, start: string)
    requires Trimmed(start)
    ensures Trimmed(CurrentStage(fm, start))
  {
    if "stage" in fm { StripTrimmed(fm["stage"]); }
  }

  lemma {:induction false} StripsToStage(stages: Fields, name: string)
    requires Routable(stages)
    ensures name in StrippedKeys(stages) ==> HasKey(stages, name)
    ensures HasKey(stages, name) ==> HasKey(stages, Strip(name))
  {
    StrippedKeysAt(stages);
    if HasKey(stages, name) {
      var k := KeyIndex(stages, name);
    }
  }

  /** A routable definition is never at fault. */
  lemma RoutableNeverBlamed(s: Store, fm: Frontmatter, sender: Node, typeKey: string, graph: Fields)
    requires FormTypeOf(fm) == Some(typeKey) && typeKey in s.active
    requires (typeKey, s.active[typeKey]) in s.graphs && s.graphs[(typeKey, s.active[typeKey])] == Obj(graph)
    requires ValidStageGraph(WorldOf(s.site, typeKey), typeKey, graph) && UniqueKeys(Get(graph, "stages").fields)
    requires Routable(Get(graph, "stages").fields)
    ensures var g := LoadStageGraph(Obj(graph));
            && g.Ok? && !StageHidden(fm, g.value) && !DecisionHidden(fm, g.value) && !EntersBadStage(fm, g.value)
  {
    var w := WorldOf(s.site, typeKey);
    ValidGraphLoads(w, typeKey, graph);
    ValidIsSound(w, typeKey, graph);
    var g := LoadStageGraph(Obj(graph)).value;
    StripTrimmed(StartStage(graph, g.stages).s);
    StripsToStage(g.stages, StartStage(graph, g.stages).s);
    CurrentTrimmed(fm, g.start);
    DecisionTrimmed(fm);
    StripsToStage(g.stages, CurrentStage(fm, g.start));
    if HasKey(g.stages, CurrentStage(fm, g.start)) && DecisionKey(fm).Some? {
      RoutableStep(g.stages, CurrentStage(fm, g.start), DecisionKey(fm).value);
    }
  }

  lemma {:induction false} RoutableStep(stages: Fields, name: string, key: string)
    requires SoundStages(stages) && Routable(stages) && HasKey(stages, name) && Trimmed(name)
    requires Trimmed(key) && key != ""
    ensures RawStep(stages, name, key).None? ==> key !in StrippedKeys(StageSteps(Get(stages, name)))
    ensures RawStep(stages, name, key).Some? ==>
              var next := Strip(RawStep(stages, name, key).value);
              HasKey(stages, next) && !NamesUnsafeSkill(Get(stages, next))
  {
    assert StepsRoutable(stages, StageSteps(Get(stages, name)));
    if RawStep(stages, name, key).None? {
      NoRawStep(stages, name, key);
    } else {
      StepOfRaw(stages, name, key);
      StageStepsValid(stages, name);
      var step := (key, RawStep(stages, name, key).value);
      var i :| 0 <= i < |StageSteps(Get(stages, name))| && StageSteps(Get(stages, name))[i] == step;
      StripsToStage(stages, step.1);
    }
  }

  /** A file that names its form type, its stage and its decision. */
  function FileAt(typeKey: string, stage: string, decision: string): Frontmatter {
    map["form_type" := typeKey, "stage" := stage, "decision" := decision]
  }

  lemma FileAtReads(typeKey: string, stage: string, decision: string, start: string)
    requires Trimmed(typeKey) && typeKey != "" && Trimmed(stage) && stage != "" && Trimmed(decision) && decision != ""
    ensures var fm := FileAt(typeKey, stage, decision);
            && FormTypeOf(fm) == Some(typeKey) && CurrentStage(fm, start) == stage && DecisionKey(fm) == Some(decision)
  {
    var fm := FileAt(typeKey, stage, decision);
    StripTrimmed(typeKey);
    StripTrimmed(stage);
    StripTrimmed(decision);
    assert |"form_type"| == 9 && |"decision"| == 8 && |"stage"| == 5;
    assert fm["form_type"] == typeKey && fm["stage"] == stage && fm["decision"] == decision;
  }

  /** Of two decisions of a sound stage, at most one strips to a key. */
  lemma {:induction false} OneStripsTo(stages: Fields, name: string, a: (string, string), b: (string, string))
    requires SoundStages(stages) && HasKey(stages, name)
    requires a in StageSteps(Get(stages, name)) && b in StageSteps(Get(stages, name)) && Strip(a.0) == Strip(b.0)
    ensures a == b
  {
    StageStepsValid(stages, name);
    OneOfSteps(StageSteps(Get(stages, name)), a, b);
  }

  lemma {:induction false} OneOfSteps(steps: seq<(string, string)>, a: (string, string), b: (string, string))
    requires NoDup(StrippedKeys(steps)) && a in steps && b in steps && Strip(a.0) == Strip(b.0)
    ensures a == b
  {
    StrippedKeysAt(steps);
    var i :| 0 <= i < |steps| && steps[i] == a;
    var j :| 0 <= j < |steps| && steps[j] == b;
    assert StrippedKeys(steps)[i] == StrippedKeys(steps)[j];
  }

  /** A step of a stage that files can name: its file is refused for its blanks,
      or enters the stage it leads to. */
  lemma {:induction false} BadStep(g: Loaded, typeKey: string, name: string, step: (string, string))
    requires SoundStages(g.stages) && HasKey(g.stages, name) && Trimmed(name) && Trimmed(typeKey) && typeKey != ""
    requires step in StageSteps(Get(g.stages, name))
    requires !Trimmed(step.0) || NamesUnsafeSkill(Get(g.stages, Strip(step.1)))
    ensures var fm := FileAt(typeKey, name, Strip(step.0));
            FormTypeOf(fm) == Some(typeKey) && (DecisionHidden(fm, g) || EntersBadStage(fm, g))
  {
    var steps, key := StageSteps(Get(g.stages, name)), Strip(step.0);
    StageStepsValid(g.stages, name);
    StrippedKeysAt(steps);
    var i :| 0 <= i < |steps| && steps[i] == step;
    StripTrimmed(step.0);
    StripTrimmed(key);
    NamedStage(g.stages, name);
    FileAtReads(typeKey, name, key, g.start);
    assert StrippedKeys(steps)[i] == key;
    if RawStep(g.stages, name, key).Some? {
      StepOfRaw(g.stages, name, key);
      OneStripsTo(g.stages, name, step, (key, RawStep(g.stages, name, key).value));
    }
  }

  lemma {:induction false} NamedStage(stages: Fields, name: string)
    requires SoundStages(stages) && HasKey(stages, name)
    ensures !Blank(name) && name != ""
  {
    var k := KeyIndex(stages, name);
    assert StageSound(stages, stages[k]);
    StripTrimmed("");
  }

  /** A definition that is not routable is at fault for some file. */
  lemma UnroutableIsBlamed(g: Loaded, typeKey: string) returns (fm: Frontmatter)
    requires SoundStages(g.stages) && !Routable(g.stages) && Trimmed(typeKey) && typeKey != ""
    ensures FormTypeOf(fm) == Some(typeKey) && (StageHidden(fm, g) || DecisionHidden(fm, g) || EntersBadStage(fm, g))
  {
    if i :| 0 <= i < |g.stages| && !HasKey(g.stages, Strip(g.stages[i].0)) {
      var stage := Strip(g.stages[i].0);
      assert StageSound(g.stages, g.stages[i]);
      StrippedKeysAt(g.stages);
      StripTrimmed(g.stages[i].0);
      fm := FileAt(typeKey, stage, stage);
      FileAtReads(typeKey, stage, stage, g.start);
      assert StrippedKeys(g.stages)[i] == stage;
    } else {
      var name :| HasKey(g.stages, name) && Trimmed(name) && !StepsRoutable(g.stages, StageSteps(Get(g.stages, name)));
      var step :| step in StageSteps(Get(g.stages, name))
                  && !(Trimmed(step.0) && !NamesUnsafeSkill(Get(g.stages, Strip(step.1))));
      BadStep(g, typeKey, name, step);
      fm := FileAt(typeKey, name, Strip(step.0));
    }
  }

  /** A published definition is never why a file is refused, whatever the file, if
      and only if it is routable, which the validator does not ask. */
  lemma NeverBlamedIff(s: Store, sender: Node, typeKey: string, graph: Fields)
    requires Trimmed(typeKey) && typeKey != "" && typeKey in s.active
    requires (typeKey, s.active[typeKey]) in s.graphs && s.graphs[(typeKey, s.active[typeKey])] == Obj(graph)
    requires ValidStageGraph(WorldOf(s.site, typeKey), typeKey, graph) && UniqueKeys(Get(graph, "stages").fields)
    ensures LoadStageGraph(Obj(graph)).Ok?
    ensures var g := LoadStageGraph(Obj(graph)).value;
            (forall fm :: FormTypeOf(fm) == Some(typeKey) && RouteFile(s, fm, sender).Err? ==>
               !BlamesDefinition(fm, g, RouteFile(s, fm, sender).error))
            <==> Routable(g.stages)
  {
    ValidGraphLoads(WorldOf(s.site, typeKey), typeKey, graph);
    ValidIsSound(WorldOf(s.site, typeKey), typeKey, graph);
    var g := LoadStageGraph(Obj(graph)).value;
    if Routable(g.stages) {
      forall fm | FormTypeOf(fm) == Some(typeKey) && RouteFile(s, fm, sender).Err?
        ensures !BlamesDefinition(fm, g, RouteFile(s, fm, sender).error)
      {
        RoutableNeverBlamed(s, fm, sender, typeKey, graph);
        DefinitionBlamedIff(s, fm, sender, typeKey, graph);
      }
    } else {
      var fm := UnroutableIsBlamed(g, typeKey);
      DefinitionBlamedIff(s, fm, sender, typeKey, graph);
    }
  }

  // ---------------------------------------------------------------------
  // The workflow the ledger walks
  // ---------------------------------------------------------------------

  /** An edge's holder rule as the ledger applies it; a fixed holder that cannot
      be resolved leaves an edge nobody can take. */
  function RuleOf(dir: seq<Node>, rule: HolderRule): Option<Ledger.Rule> {
    match rule
    case NoHolder => Some(Ledger.Clear)
    case FieldRef(_) => Some(Ledger.Chosen)
    case StaticNode(id) => if GetNode(dir, id).Some? then Some(Ledger.Fixed(id)) else None
    case StaticName(name) =>
      var node := UniqueByName(dir, Strip(name));
      if node.Ok? then Some(Ledger.Fixed(node.value.id)) else None
  }

  ghost function WorkflowOf(dir: seq<Node>, stages: Fields): Ledger.Workflow {
    set e | e in Project(stages) && RuleOf(dir, e.rule).Some? ::
      Ledger.Edge(e.from, e.decision, e.to, RuleOf(dir, e.rule).value)
  }

  lemma {:induction false} CandidateIsEdge(edges: seq<ProjectedEdge>, from: string, decision: string)
    ensures forall e :: e in Candidates(edges, from, Some(decision), None) ==>
              e in edges && e.from == from && e.decision == decision
  {
    if edges != [] { CandidateIsEdge(edges[1..], from, decision); }
  }

  lemma HolderByRule(dir: seq<Node>, rule: HolderRule, context: map<string, string>)
    requires ResolveNextHolder(dir, rule, context).Ok?
    ensures var holder := ResolveNextHolder(dir, rule, context).value;
            && RuleOf(dir, rule).Some?
            && (forall seen, actor :: holder == Ledger.NextHolder(RuleOf(dir, rule).value, seen, actor, holder))
            && (holder.Some? ==> GetNode(dir, holder.value).Some?)
  {
  }

  lemma AcceptedEdge(s: Store, form: Form, decision: string, actor: string, context: map<string, string>)
    returns (e: ProjectedEdge)
    requires TransitionForm(s, form, decision, actor, context).Ok?
    ensures e in Project(BoundStages(s, form)) && e.from == form.entry.status
    ensures var holder := ResolveNextHolder(s.site.dir, e.rule, context);
            && holder.Ok?
            && TransitionForm(s, form, decision, actor, context).value
               == Ledger.Change(e.from, e.to, e.decision, Strip(actor), holder.value)
  {
    var edges := Project(BoundStages(s, form));
    CandidateIsEdge(edges, form.entry.status, decision);
    e := ResolveEdge(edges, form.entry.status, Some(decision), None).value;
    assert e in Candidates(edges, form.entry.status, Some(decision), None);
  }

  /** Whatever the ledger accepts is a step the interleaving model admits: by the
      holder, an existing node, along an edge of the bound workflow and under its
      holder rule, to an existing node. */
  lemma AcceptedChangeIsWorkflowStep(s: Store, form: Form, decision: string, actor: string,
                                     context: map<string, string>)
    returns (edge: Ledger.Edge)
    requires TransitionForm(s, form, decision, actor, context).Ok? && form.entry.holder != Some("")
    ensures var c := TransitionForm(s, form, decision, actor, context).value;
            && edge in WorkflowOf(s.site.dir, BoundStages(s, form)) && edge.from == form.entry.status
            && Ledger.MayAct(form.entry, c.actor)
            && c == Ledger.ChangeAlong(edge, form.entry, c.actor, c.newHolder)
            && (c.newHolder.Some? ==> GetNode(s.site.dir, c.newHolder.value).Some?)
            && GetNode(s.site.dir, c.actor).Some? && (form.typeKey, form.version) in s.graphs
  {
    var e := AcceptedEdge(s, form, decision, actor, context);
    HolderByRule(s.site.dir, e.rule, context);
    edge := Ledger.Edge(e.from, e.decision, e.to, RuleOf(s.site.dir, e.rule).value);
  }

  /** A round of the workflow through a stage whose target gives it a holder. */
  ghost predicate HeldRound(g: Ledger.Workflow, w: seq<Ledger.Edge>) {
    Ledger.Round(g, w) && !Ledger.AllClear(w)
  }

  lemma StageRounds(dir: seq<Node>, stages: Fields, free: bool)
    ensures var g := WorkflowOf(dir, stages); Ledger.RoundsKeepHolder(g, free) <==> !exists w :: HeldRound(g, w)
  {
    var g := WorkflowOf(dir, stages);
    forall w: seq<Ledger.Edge> | Ledger.Round(g, w) ensures !Ledger.AllKeep(w) && !Ledger.AllHold(w) {
      assert w[0] in g && !Ledger.Holds(w[0].rule);
    }
    RoundsIff(g, free);
  }

  lemma RoundsIff(g: Ledger.Workflow, free: bool)
    requires forall w :: Ledger.Round(g, w) ==> !Ledger.AllKeep(w) && !Ledger.AllHold(w)
    ensures Ledger.RoundsKeepHolder(g, free) <==> !exists w :: HeldRound(g, w)
  {
    if Ledger.RoundsKeepHolder(g, free) {
      forall w ensures !HeldRound(g, w) {}
    } else {
      var w: seq<Ledger.Edge> :| Ledger.Round(g, w) && !Ledger.AllClear(w) && !Ledger.AllKeep(w)
                                 && !(Ledger.AllHold(w) && Ledger.NeverUnheld(g, free, w));
      assert HeldRound(g, w);
    }
  }

  /** For stage graphs, rechecking only the status at commit is enough exactly
      when no round passes through a stage that names a holder, whether or not
      forms can be created without one. */
  lemma StageHolderCheckIff(dir: seq<Node>, stages: Fields, free: bool)
    ensures var g := WorkflowOf(dir, stages);
            (forall status, holder: Ledger.Holder, actor, decision, actions | free || holder.Some? ::
               Ledger.AllActorsHeld(
                 Ledger.Run(g, Ledger.Start(status, holder, actor, decision), actions).ledger.events))
            <==> !exists w :: HeldRound(g, w)
  {
    var g := WorkflowOf(dir, stages);
    Ledger.HolderCheckSoundIff(g, free);
    StageRounds(dir, stages, free);
  }
}
