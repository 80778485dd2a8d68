/** What a file that passed the router's guards is: what it asks for, whose form
    it is, what the stage it enters needs, and who it goes to. */
module Routes {
  import opened Prelude
  import opened Text
  import opened Forest
  import opened Directory
  import opened StageGraph
  import opened Projection
  import Ledger = FormLedger
  import opened Router

  /** A frontmatter field that says something. */
  predicate Given(fm: Frontmatter, key: string) {
    key in fm && !Blank(fm[key])
  }

  function Said(fm: Frontmatter, key: string): string
    requires Given(fm, key)
  {
    Strip(fm[key])
  }

  /** The definition a routed file is stepped on. */
  ghost predicate SteppedOn(s: Store, fm: Frontmatter, typeKey: string, version: string, g: Loaded) {
    && FormTypeOf(fm) == Some(typeKey) && typeKey in s.active && s.active[typeKey] == version
    && (typeKey, version) in s.graphs && LoadStageGraph(s.graphs[(typeKey, version)]) == Ok(g)
  }

  lemma StepFields(s: Store, fm: Frontmatter, sender: Node, g: Loaded, typeKey: string, version: string, stage: string,
                   key: string, raw: string)
    requires RouteStep(s, fm, sender, g, typeKey, version, stage, key, raw).Ok?
    ensures var r := RouteStep(s, fm, sender, g, typeKey, version, stage, key, raw).value;
            r.stage == stage && r.decision == key && r.rawNext == raw && r.next == Strip(raw)
  {
  }

  lemma StepOf(s: Store, fm: Frontmatter, sender: Node) returns (typeKey: string, version: string, g: Loaded)
    requires RouteFile(s, fm, sender).Ok?
    ensures SteppedOn(s, fm, typeKey, version, g)
    ensures var r := RouteFile(s, fm, sender).value;
            && HasKey(g.stages, r.next) && r.stage == CurrentStage(fm, g.start) && DecisionKey(fm) == Some(r.decision)
            && RawStep(g.stages, r.stage, r.decision) == Some(r.rawNext) && r.next == Strip(r.rawNext)
            && RouteStep(s, fm, sender, g, typeKey, version, r.stage, r.decision, r.rawNext) == Ok(r)
  {
    typeKey := FormTypeOf(fm).value;
    version := s.active[typeKey];
    g := LoadStageGraph(s.graphs[(typeKey, version)]).value;
    var stage, key := CurrentStage(fm, g.start), DecisionKey(fm).value;
    StepFields(s, fm, sender, g, typeKey, version, stage, key, RawStep(g.stages, stage, key).value);
  }

  // ---------------------------------------------------------------------
  // What the file asks for
  // ---------------------------------------------------------------------

  /** The type is the one named, or else a legacy type, "message" in any case. */
  predicate AsksForType(fm: Frontmatter, typeKey: string) {
    if Given(fm, "form_type") then typeKey == Said(fm, "form_type")
    else
      && Given(fm, "type")
      && if Lower(Said(fm, "type")) == "message" then typeKey == "message" else typeKey == Said(fm, "type")
  }

  /** A routed file is stepped from the stage it names, or the start stage, along
      the decision it names, under either key, the newer one first. */
  lemma RoutedAsAsked(s: Store, fm: Frontmatter, sender: Node) returns (typeKey: string, version: string, g: Loaded)
    requires RouteFile(s, fm, sender).Ok?
    ensures SteppedOn(s, fm, typeKey, version, g) && AsksForType(fm, typeKey)
    ensures var r := RouteFile(s, fm, sender).value;
            && r.stage == (if Given(fm, "stage") then Said(fm, "stage") else g.start)
            && (Given(fm, "decision") || Given(fm, "transition"))
            && r.decision == (if Given(fm, "decision") then Said(fm, "decision") else Said(fm, "transition"))
            && RawStep(g.stages, r.stage, r.decision) == Some(r.rawNext) && r.next == Strip(r.rawNext)
  {
    typeKey, version, g := StepOf(s, fm, sender);
    assert |"decision"| == 8 && |"transition"| == 10 && |"form_type"| == 9 && |"type"| == 4;
  }

  // ---------------------------------------------------------------------
  // Whose form it is
  // ---------------------------------------------------------------------

  /** A new form: begun at the start stage by someone permitted, bound to the active
      version, started and held by its sender, and never moved before. */
  ghost predicate NewlyStarted(s: Store, typeKey: string, version: string, g: Loaded, sender: Node, r: Route) {
    && r.stage == g.start && Permitted(s.site.dir, g.allowlist, sender.id)
    && r.form.typeKey == typeKey && r.form.version == version && r.form.sender == Some(sender.id)
    && r.form.entry.status == g.start && r.form.entry.holder == Some(sender.id)
    && r.form.entry.version == 1 && r.form.entry.history == [g.start]
  }

  /** A known form: at the stage the file is at, and not held by anyone else. */
  predicate TakenUp(s: Store, fm: Frontmatter, sender: Node, r: Route) {
    && Given(fm, "form_id") && Said(fm, "form_id") in s.forms && r.form == s.forms[Said(fm, "form_id")]
    && r.form.entry.status == r.stage
    && (r.form.entry.holder.Some? ==> r.form.entry.holder.value in ["", sender.id])
  }

  /** A file without a form id starts a form; any other moves the form it names. */
  lemma NewOrTakenUp(s: Store, fm: Frontmatter, sender: Node) returns (typeKey: string, version: string, g: Loaded)
    requires RouteFile(s, fm, sender).Ok?
    ensures SteppedOn(s, fm, typeKey, version, g)
    ensures var r := RouteFile(s, fm, sender).value;
            if Given(fm, "form_id") then TakenUp(s, fm, sender, r)
            else NewlyStarted(s, typeKey, version, g, sender, r)
  {
    typeKey, version, g := StepOf(s, fm, sender);
    var existing := FindForm(s, fm).value;
    assert CheckForm(s.site.dir, g, existing, RouteFile(s, fm, sender).value.stage, sender).Ok?;
  }

  /** What a refusal says about the file's stage and decision, its form and its sender. */
  ghost predicate Justified(s: Store, fm: Frontmatter, sender: Node, g: Loaded, stage: string, e: Refusal) {
    var known := Given(fm, "form_id") && Said(fm, "form_id") in s.forms;
    && !e.NoFormType? && !e.NoActiveType?
    && (e.StageUndefined? ==> !HasKey(g.stages, stage))
    && (e.NoDecision? ==> !Given(fm, "decision") && !Given(fm, "transition"))
    && (e.DecisionUndefined? ==>
          exists key :: DecisionKey(fm) == Some(key) && RawStep(g.stages, stage, key).None?)
    && (e.FormNotFound? ==> Given(fm, "form_id") && !known)
    && (e.StaleStage? ==> known && s.forms[Said(fm, "form_id")].entry.status != stage)
    && (e.HolderMismatch? ==>
          known && s.forms[Said(fm, "form_id")].entry.holder !in [None, Some(""), Some(sender.id)])
    && (e.NotStartStage? ==> !Given(fm, "form_id") && stage != g.start)
    && (e.NotAllowed? ==> !Given(fm, "form_id") && !Permitted(s.site.dir, g.allowlist, sender.id))
  }

  /** Refusals that are about neither the type nor the form. */
  predicate Otherwise(e: Refusal) {
    e.SkillRequired? || e.SkillUnsafe? || e.SkillMissing? || e.InitiatorUnknown? || e.TargetMissing? || e.TargetUnknown?
  }

  lemma {:induction false} SkillRefusals(w: World, payload: Json)
    ensures CheckSkill(w, payload).Err? ==> Otherwise(CheckSkill(w, payload).error)
  {
  }

  lemma {:induction false} PeopleRefusals(dir: seq<Node>, fm: Frontmatter, existing: Option<Form>, sender: Node)
    ensures InitiatorId(dir, fm, existing, sender).Err? ==> Otherwise(InitiatorId(dir, fm, existing, sender).error)
  {
  }

  lemma {:induction false} TargetRefusals(dir: seq<Node>, fm: Frontmatter, target: Json, initiator: string)
    ensures var d := ResolveTarget(dir, target, fm, initiator); d.Err? ==> Otherwise(d.error)
  {
  }

  lemma {:induction false} FormRefusals(s: Store, fm: Frontmatter, sender: Node, g: Loaded, stage: string)
    ensures FindForm(s, fm).Err? ==> Justified(s, fm, sender, g, stage, FindForm(s, fm).error)
    ensures FindForm(s, fm).Ok? && CheckForm(s.site.dir, g, FindForm(s, fm).value, stage, sender).Err? ==>
              Justified(s, fm, sender, g, stage, CheckForm(s.site.dir, g, FindForm(s, fm).value, stage, sender).error)
  {
  }

  lemma {:induction false} StepJustified(s: Store, fm: Frontmatter, sender: Node, g: Loaded, typeKey: string,
                                         version: string, stage: string, key: string, raw: string)
    requires RouteStep(s, fm, sender, g, typeKey, version, stage, key, raw).Err?
    ensures Justified(s, fm, sender, g, stage, RouteStep(s, fm, sender, g, typeKey, version, stage, key, raw).error)
  {
    var dir, found := s.site.dir, FindForm(s, fm);
    SkillRefusals(WorldOf(s.site, typeKey), Get(g.stages, Strip(raw)));
    FormRefusals(s, fm, sender, g, stage);
    if found.Ok? {
      PeopleRefusals(dir, fm, found.value, sender);
      var initiator := InitiatorId(dir, fm, found.value, sender);
      if initiator.Ok? { TargetRefusals(dir, fm, StageTarget(g.stages, Strip(raw)), initiator.value); }
    }
  }

  /** A file is refused for its type exactly when it has none, or none that is active. */
  lemma {:induction false} TypeRefusedIff(s: Store, fm: Frontmatter, sender: Node)
    ensures RouteFile(s, fm, sender) == Err(NoFormType) <==> !Given(fm, "form_type") && !Given(fm, "type")
    ensures RouteFile(s, fm, sender) == Err(NoActiveType) <==>
              && FormTypeOf(fm).Some?
              && !(FormTypeOf(fm).value in s.active
                   && (FormTypeOf(fm).value, s.active[FormTypeOf(fm).value]) in s.graphs)
  {
    if FormTypeOf(fm).Some? && FormTypeOf(fm).value in s.active
       && (FormTypeOf(fm).value, s.active[FormTypeOf(fm).value]) in s.graphs {
      RefusedLater(s, fm, sender, s.active[FormTypeOf(fm).value]);
    }
  }

  lemma {:induction false} RefusedLater(s: Store, fm: Frontmatter, sender: Node, version: string)
    requires FormTypeOf(fm).Some? && FormTypeOf(fm).value in s.active && s.active[FormTypeOf(fm).value] == version
    requires (FormTypeOf(fm).value, version) in s.graphs
    ensures var r := RouteFile(s, fm, sender); r.Err? ==> !r.error.NoFormType? && !r.error.NoActiveType?
  {
    var loaded := LoadStageGraph(s.graphs[(FormTypeOf(fm).value, version)]);
    if loaded.Ok? && DecisionKey(fm).Some? {
      var typeKey, g := FormTypeOf(fm).value, loaded.value;
      var stage, key := CurrentStage(fm, g.start), DecisionKey(fm).value;
      var raw := RawStep(g.stages, stage, key);
      if raw.Some? && RouteStep(s, fm, sender, g, typeKey, version, stage, key, raw.value).Err? {
        StepJustified(s, fm, sender, g, typeKey, version, stage, key, raw.value);
      }
    }
  }

  /** A refusal for the form, its stage or holder, the start stage or the allowlist is
      for that reason. */
  lemma {:induction false} RefusalIsJustified(s: Store, fm: Frontmatter, sender: Node, typeKey: string, version: string,
                                              g: Loaded)
    requires SteppedOn(s, fm, typeKey, version, g) && RouteFile(s, fm, sender).Err?
    ensures Justified(s, fm, sender, g, CurrentStage(fm, g.start), RouteFile(s, fm, sender).error)
  {
    if DecisionKey(fm).Some? {
      var stage, key := CurrentStage(fm, g.start), DecisionKey(fm).value;
      var raw := RawStep(g.stages, stage, key);
      if raw.Some? && RouteStep(s, fm, sender, g, typeKey, version, stage, key, raw.value).Err? {
        StepJustified(s, fm, sender, g, typeKey, version, stage, key, raw.value);
      }
    }
  }

  // ---------------------------------------------------------------------
  // What the stage needs
  // ---------------------------------------------------------------------

  /** The stage names a skill, inside the skills directory and installed for the type. */
  predicate Equipped(s: Store, typeKey: string, payload: Fields) {
    && NonBlankStr(Get(payload, "required_skill"))
    && SafeSkillName(Strip(Get(payload, "required_skill").s))
    && (typeKey, Strip(Get(payload, "required_skill").s)) in s.site.skills
  }

  /** Nobody is handed a form, and none enters a stage that goes on, without the
      skill its stage names being installed for the form's type. */
  lemma DeliveredEquipped(s: Store, fm: Frontmatter, sender: Node) returns (typeKey: string, version: string, g: Loaded)
    requires RouteFile(s, fm, sender).Ok?
    ensures SteppedOn(s, fm, typeKey, version, g)
    ensures var r := RouteFile(s, fm, sender).value;
            var payload := Get(g.stages, r.next);
            && payload.Obj?
            && (r.node.Some? || !IsTerminal(payload.fields) || NonBlankStr(Get(payload.fields, "required_skill"))
                ==> Equipped(s, typeKey, payload.fields))
  {
    typeKey, version, g := StepOf(s, fm, sender);
    var r := RouteFile(s, fm, sender).value;
    assert CheckSkill(WorldOf(s.site, typeKey), Get(g.stages, r.next)).Ok?;
  }

  // ---------------------------------------------------------------------
  // Who it goes to
  // ---------------------------------------------------------------------

  /** A reference, by id or by unique name, means this node. */
  predicate Means(dir: seq<Node>, reference: string, node: Node) {
    ResolveReference(dir, reference) == Ok(node)
  }

  /** Of two fields the first that says something names the node. */
  predicate NamedBy(dir: seq<Node>, fm: Frontmatter, first: string, second: string, node: Node) {
    if Given(fm, first) then Means(dir, Said(fm, first), node)
    else Given(fm, second) && Means(dir, Said(fm, second), node)
  }

  /** The node a form was started by: the one stored with a known form, else the one
      the file names by id, else by reference, else the sender. */
  predicate StartedBy(s: Store, fm: Frontmatter, sender: Node, id: string) {
    if Given(fm, "form_id") && Said(fm, "form_id") in s.forms
       && s.forms[Said(fm, "form_id")].sender.Some? && s.forms[Said(fm, "form_id")].sender.value != ""
    then id == s.forms[Said(fm, "form_id")].sender.value
    else if Given(fm, "initiator_node_id") then id == Said(fm, "initiator_node_id") && Known(s.site.dir, id)
    else if Given(fm, "initiator") then
      exists n :: n in s.site.dir && Means(s.site.dir, Said(fm, "initiator"), n) && n.id == id
    else id == sender.id
  }

  /** A target that nobody is meant by. */
  predicate MeansNobody(target: Json) {
    !target.Str? || Strip(target.s) == "" || Lower(Strip(target.s)) in ["none", "null", "{{none}}"]
  }

  /** Who a stage's target means for this file. */
  ghost predicate MeantBy(s: Store, fm: Frontmatter, sender: Node, target: Json, node: Option<Node>) {
    if MeansNobody(target) then node == None
    else
      var t := Strip(target.s);
      && node.Some? && node.value in s.site.dir
      && if t == "{{initiator}}" then StartedBy(s, fm, sender, node.value.id)
         else if t == "{{any}}" then NamedBy(s.site.dir, fm, "target_node_id", "target", node.value)
         else if VariableName(t).Some? then
           NamedBy(s.site.dir, fm, VariableName(t).value + "_node_id", VariableName(t).value, node.value)
         else Means(s.site.dir, t, node.value)
  }

  predicate Letter(c: char) {
    'a' <= c <= 'z' || 'A' <= c <= 'Z' || c == '_'
  }

  /** A target is a variable exactly when it is an identifier in double braces. */
  lemma VariableIff(t: string, name: string)
    ensures VariableName(t) == Some(name) <==>
              && t == "{{" + name + "}}" && name != "" && Letter(name[0])
              && forall i :: 0 <= i < |name| ==> Letter(name[i]) || '0' <= name[i] <= '9'
  {
    if VariableName(t) == Some(name) {
      VariableText(t, name);
      assert forall i :: 0 <= i < |name| ==> name[i] == t[i + 2];
    } else if t == "{{" + name + "}}" && name != "" {
      assert t[..2] == "{{" && t[|t| - 2..] == "}}" && t[2..|t| - 2] == name;
      assert forall i :: 2 <= i < |t| - 2 ==> t[i] == name[i - 2];
    }
  }

  lemma VariableText(t: string, name: string)
    requires VariableName(t) == Some(name)
    ensures t == "{{" + name + "}}"
  {
    assert t == t[..2] + t[2..|t| - 2] + t[|t| - 2..];
  }

  lemma InitiatorStarted(s: Store, fm: Frontmatter, sender: Node, existing: Option<Form>)
    requires FindForm(s, fm) == Ok(existing) && InitiatorId(s.site.dir, fm, existing, sender).Ok?
    ensures StartedBy(s, fm, sender, InitiatorId(s.site.dir, fm, existing, sender).value)
  {
    if Given(fm, "initiator_node_id") && GetNode(s.site.dir, Said(fm, "initiator_node_id")).Some? {
      assert GetNode(s.site.dir, Said(fm, "initiator_node_id")).value in s.site.dir;
    }
    if Given(fm, "initiator") && ResolveReference(s.site.dir, Said(fm, "initiator")).Ok? {
      var n := ResolveReference(s.site.dir, Said(fm, "initiator")).value;
      assert n in s.site.dir && Means(s.site.dir, Said(fm, "initiator"), n);
    }
  }

  lemma DeliveryMeant(s: Store, fm: Frontmatter, sender: Node, target: Json, initiator: string)
    requires StartedBy(s, fm, sender, initiator) && ResolveTarget(s.site.dir, target, fm, initiator).Ok?
    ensures MeantBy(s, fm, sender, target, ResolveTarget(s.site.dir, target, fm, initiator).value.node)
  {
  }

  lemma {:induction false} OtherVariable(t: string, name: string)
    requires VariableName(t) == Some(name) && t != "{{initiator}}"
    ensures name + "_node_id" != "initiator_node_id"
  {
    VariableText(t, name);
    assert (name + "_node_id")[..|name|] == name && "initiator_node_id"[..9] == "initiator";
    assert |"_node_id"| == 8 && |"initiator_node_id"| == 17;
  }

  /** No other field of a target stands in for the initiator's. */
  lemma {:induction false} InitiatorTold(dir: seq<Node>, target: Json, fm: Frontmatter, initiator: string)
    requires ResolveTarget(dir, target, fm, initiator).Ok?
    ensures var context := Context(initiator, ResolveTarget(dir, target, fm, initiator).value);
            "initiator_node_id" in context && context["initiator_node_id"] == initiator
  {
    DeliveryFields(dir, target, fm, initiator);
    if NonBlankStr(target) && VariableName(Strip(target.s)).Some? && Strip(target.s) != "{{initiator}}" {
      OtherVariable(Strip(target.s), VariableName(Strip(target.s)).value);
    }
    assert |"initiator_node_id"| == 17 && |"target_node_id"| == 14;
  }

  /** The one field a delivery sets. */
  lemma {:induction false} DeliveryFields(dir: seq<Node>, target: Json, fm: Frontmatter, initiator: string)
    requires ResolveTarget(dir, target, fm, initiator).Ok?
    ensures var d := ResolveTarget(dir, target, fm, initiator).value;
            || d.fields == map[] || d.fields == map["initiator_node_id" := initiator]
            || (d.node.Some? && d.fields == map["target_node_id" := d.node.value.id])
            || (&& d.node.Some? && NonBlankStr(target) && VariableName(Strip(target.s)).Some?
                && Strip(target.s) != "{{initiator}}"
                && d.fields == map[VariableName(Strip(target.s)).value + "_node_id" := d.node.value.id])
  {
  }

  lemma SameId(dir: seq<Node>, a: Node, b: Node)
    requires ValidDirectory(dir) && a in dir && b in dir && a.id == b.id
    ensures a == b
  {
    GetNodeById(dir, a);
    GetNodeById(dir, b);
  }

  /** At most one node is meant. */
  lemma MeantOnce(s: Store, fm: Frontmatter, sender: Node, target: Json, a: Option<Node>, b: Option<Node>)
    requires ValidDirectory(s.site.dir) && MeantBy(s, fm, sender, target, a) && MeantBy(s, fm, sender, target, b)
    ensures a == b
  {
    if a.Some? && b.Some? && a.value.id == b.value.id {
      SameId(s.site.dir, a.value, b.value);
    }
  }

  lemma StepDelivers(s: Store, fm: Frontmatter, sender: Node, g: Loaded, typeKey: string, version: string,
                     stage: string, key: string, raw: string) returns (initiator: string)
    requires RouteStep(s, fm, sender, g, typeKey, version, stage, key, raw).Ok?
    ensures var r := RouteStep(s, fm, sender, g, typeKey, version, stage, key, raw).value;
            var d := ResolveTarget(s.site.dir, StageTarget(g.stages, Strip(raw)), fm, initiator);
            StartedBy(s, fm, sender, initiator) && d.Ok? && r.node == d.value.node
            && r.context == Context(initiator, d.value)
  {
    var existing := FindForm(s, fm).value;
    initiator := InitiatorId(s.site.dir, fm, existing, sender).value;
    InitiatorStarted(s, fm, sender, existing);
  }

  lemma {:induction false} TargetTold(dir: seq<Node>, target: Json, fm: Frontmatter, initiator: string)
    requires ResolveTarget(dir, target, fm, initiator).Ok?
    ensures var d := ResolveTarget(dir, target, fm, initiator).value;
            d.node.Some? ==>
              "target_node_id" in Context(initiator, d) && Context(initiator, d)["target_node_id"] == d.node.value.id
  {
    DeliveryFields(dir, target, fm, initiator);
    assert |"initiator_node_id"| == 17 && |"target_node_id"| == 14;
  }

  /** A routed file goes to the node its stage's target means, and to no other; the
      ledger is told who started the form and who gets it. */
  lemma DeliveredToMeant(s: Store, fm: Frontmatter, sender: Node) returns (typeKey: string, version: string, g: Loaded)
    requires ValidDirectory(s.site.dir) && RouteFile(s, fm, sender).Ok?
    ensures SteppedOn(s, fm, typeKey, version, g)
    ensures var r := RouteFile(s, fm, sender).value;
            && (forall node :: MeantBy(s, fm, sender, StageTarget(g.stages, r.next), node) <==> node == r.node)
            && "initiator_node_id" in r.context && StartedBy(s, fm, sender, r.context["initiator_node_id"])
            && (r.node.Some? ==> "target_node_id" in r.context && r.context["target_node_id"] == r.node.value.id)
  {
    typeKey, version, g := StepOf(s, fm, sender);
    var r := RouteFile(s, fm, sender).value;
    var target := StageTarget(g.stages, r.next);
    var initiator := StepDelivers(s, fm, sender, g, typeKey, version, r.stage, r.decision, r.rawNext);
    TargetTold(s.site.dir, target, fm, initiator);
    DeliveryMeant(s, fm, sender, target, initiator);
    InitiatorTold(s.site.dir, target, fm, initiator);
    forall node | MeantBy(s, fm, sender, target, node) ensures node == r.node {
      MeantOnce(s, fm, sender, target, node, r.node);
    }
  }

  // ---------------------------------------------------------------------
  // What the ledger accepts
  // ---------------------------------------------------------------------

  predicate Known(dir: seq<Node>, id: string) {
    exists n :: n in dir && n.id == id
  }

  /** Who a holder rule gives the form to, in this context. */
  predicate Gives(dir: seq<Node>, rule: HolderRule, context: map<string, string>, holder: Option<string>) {
    && (holder.Some? ==> Known(dir, holder.value))
    && match rule
       case NoHolder => holder == None
       case FieldRef(field) => holder == if field in context then Some(context[field]) else None
       case StaticNode(id) => holder == Some(id)
       case StaticName(name) =>
         exists n :: n in dir && UniqueByName(dir, Strip(name)) == Ok(n) && holder == Some(n.id)
  }

  lemma NextHolderIff(dir: seq<Node>, rule: HolderRule, context: map<string, string>, holder: Option<string>)
    ensures ResolveNextHolder(dir, rule, context) == Ok(holder) <==> Gives(dir, rule, context, holder)
  {
    forall id ensures GetNode(dir, id).Some? <==> Known(dir, id) {
      KnownIff(dir, id);
    }
    if rule.StaticName? && UniqueByName(dir, Strip(rule.name)).Ok? {
      NamedInDirectory(dir, Strip(rule.name));
    }
  }

  lemma NamedInDirectory(dir: seq<Node>, name: string)
    requires UniqueByName(dir, name).Ok?
    ensures UniqueByName(dir, name).value in dir
  {
    assert NodesByName(dir, name)[0] in NodesByName(dir, name);
  }

  /** A holder rule has a place in the workflow exactly when it can be followed. */
  lemma RuleIsUsableIff(dir: seq<Node>, rule: HolderRule)
    ensures RuleOf(dir, rule).Some? <==> exists context, holder :: Gives(dir, rule, context, holder)
  {
    var none: map<string, string> := map[];
    if RuleOf(dir, rule).Some? {
      if rule.StaticName? { NamedInDirectory(dir, Strip(rule.name)); }
      if rule.StaticNode? { assert GetNode(dir, rule.id).value in dir; }
      var holder := if rule.StaticNode? then Some(rule.id)
                    else if rule.StaticName? then Some(UniqueByName(dir, Strip(rule.name)).value.id) else None;
      assert Gives(dir, rule, none, holder);
    } else if context, holder :| Gives(dir, rule, context, holder) {
      NextHolderIff(dir, rule, context, holder);
    }
  }

  /** The one edge that a decision of this form describes. */
  ghost predicate TakesEdge(s: Store, form: Form, decision: string, e: ProjectedEdge) {
    exists i: nat :: && OnlyDescribed(Project(BoundStages(s, form)), form.entry.status, Some(decision), None, i)
                     && Project(BoundStages(s, form))[i] == e
  }

  /** A known node that is not shut out by another holder, and a form bound to a stored
      stage graph. */
  predicate MayTransition(s: Store, form: Form, actorId: string) {
    var bound := (form.typeKey, form.version);
    && actorId != "" && Known(s.site.dir, actorId) && form.typeKey != "" && form.version != ""
    && form.entry.holder in [None, Some(""), Some(actorId)]
    && bound in s.graphs && s.graphs[bound].Obj? && Get(s.graphs[bound].fields, "stages").Obj?
  }

  lemma KnownIff(dir: seq<Node>, id: string)
    ensures GetNode(dir, id).Some? <==> Known(dir, id)
  {
    if GetNode(dir, id).Some? { assert GetNode(dir, id).value in dir; }
  }

  lemma HeldIff(e: Ledger.Entry, actor: string)
    ensures Held(e, actor) <==> e.holder !in [None, Some(""), Some(actor)]
  {
  }

  lemma {:induction false} TransitionOf(s: Store, form: Form, decision: string, actor: string,
                                        context: map<string, string>)
    ensures var r := TransitionForm(s, form, decision, actor, context);
            var edge := ResolveEdge(Project(BoundStages(s, form)), form.entry.status, Some(decision), None);
            && (r.Ok? <==> MayTransition(s, form, Strip(actor)) && edge.Ok?
                           && ResolveNextHolder(s.site.dir, edge.value.rule, context).Ok?)
            && (r.Ok? ==> r.value == Ledger.Change(form.entry.status, edge.value.to, edge.value.decision, Strip(actor),
                                                   ResolveNextHolder(s.site.dir, edge.value.rule, context).value))
  {
    KnownIff(s.site.dir, Strip(actor));
    HeldIff(form.entry, Strip(actor));
  }

  /** The ledger commits a decision exactly when a known node that is not shut out by
      another holder makes it, on a form bound to a stored stage graph in which it
      describes one edge, and that edge gives the form to a known node or to nobody;
      the change goes along the edge, for that node. */
  lemma {:induction false} TransitionIff(s: Store, form: Form, decision: string, actor: string,
                                         context: map<string, string>, c: Ledger.Change)
    ensures TransitionForm(s, form, decision, actor, context) == Ok(c) <==>
              && MayTransition(s, form, Strip(actor))
              && exists e :: && TakesEdge(s, form, decision, e) && Gives(s.site.dir, e.rule, context, c.newHolder)
                             && c == Ledger.Change(form.entry.status, e.to, e.decision, Strip(actor), c.newHolder)
  {
    var r := TransitionForm(s, form, decision, actor, context);
    var edge := ResolveEdge(Project(BoundStages(s, form)), form.entry.status, Some(decision), None);
    TransitionOf(s, form, decision, actor, context);
    if r == Ok(c) {
      EdgeTaken(s, form, decision, edge.value);
      NextHolderIff(s.site.dir, edge.value.rule, context, c.newHolder);
    } else if e :| && TakesEdge(s, form, decision, e) && Gives(s.site.dir, e.rule, context, c.newHolder)
                   && c == Ledger.Change(form.entry.status, e.to, e.decision, Strip(actor), c.newHolder) {
      EdgeTaken(s, form, decision, e);
      NextHolderIff(s.site.dir, e.rule, context, c.newHolder);
    }
  }

  lemma {:induction false} EdgeTaken(s: Store, form: Form, decision: string, e: ProjectedEdge)
    ensures ResolveEdge(Project(BoundStages(s, form)), form.entry.status, Some(decision), None) == Ok(e)
       <==> TakesEdge(s, form, decision, e)
  {
    ResolvesIff(Project(BoundStages(s, form)), form.entry.status, Some(decision), None, e);
  }

  // ---------------------------------------------------------------------
  // What the validator's acceptance is good for
  // ---------------------------------------------------------------------

  /** An item of an allowlist that lets a sender start a form. */
  predicate LetsIn(dir: seq<Node>, item: Json, senderId: string) {
    item.Str? && (Strip(item.s) == "{{any}}"
                  || exists n :: n in dir && n.id == senderId && Means(dir, Strip(item.s), n))
  }

  lemma ReadingLetsIn(dir: seq<Node>, item: Json, senderId: string)
    requires !ReadItem(dir, item).Unusable?
    ensures LetsIn(dir, item, senderId) <==> ReadItem(dir, item) in [Anyone, Named(senderId)]
  {
    if ReadItem(dir, item).Named? {
      assert Means(dir, Strip(item.s), ResolveReference(dir, Strip(item.s)).value);
    }
  }

  /** An accepted allowlist says what it seems to, in any order: anyone may start a
      form without one or with an `{{any}}` in it, otherwise exactly the nodes that
      its references mean. */
  lemma AcceptedAllowlistPermits(w: World, allowlist: Json, senderId: string)
    requires AllowlistOk(w, allowlist)
    ensures Permitted(w.dir, allowlist, senderId) <==>
              allowlist == Null || exists i :: 0 <= i < |allowlist.items| && LetsIn(w.dir, allowlist.items[i], senderId)
  {
    if allowlist != Null {
      var items := allowlist.items;
      var readings := Readings(item => ReadItem(w.dir, item), items);
      forall i | 0 <= i < |items|
        ensures !readings[i].Unusable?
        ensures LetsIn(w.dir, items[i], senderId) <==> readings[i] in [Anyone, Named(senderId)]
      {
        assert readings[i] == ReadItem(w.dir, items[i]);
        ReadingLetsIn(w.dir, items[i], senderId);
      }
      assert forall k :: 0 <= k < |readings| ==> Unusable !in readings[..k];
    }
  }

  /** And it always lets somebody start a form. */
  lemma AcceptedAllowlistAdmits(w: World, allowlist: Json, anyId: string) returns (id: string)
    requires AllowlistOk(w, allowlist)
    ensures Permitted(w.dir, allowlist, id)
  {
    id := anyId;
    if allowlist != Null {
      var item := allowlist.items[0];
      if Strip(item.s) != "{{any}}" {
        var n := ResolveReference(w.dir, Strip(item.s)).value;
        id := n.id;
        assert Means(w.dir, Strip(item.s), n);
      }
      assert LetsIn(w.dir, item, id);
      AcceptedAllowlistPermits(w, allowlist, id);
    }
  }

  lemma ReservedVariables()
    ensures VariableName("{{any}}").Some? && VariableName("{{initiator}}").Some?
  {
    assert "{{any}}"[2] == 'a' && "{{initiator}}"[2] == 'i';
  }

  lemma FixedTarget(dir: seq<Node>, target: Json, fm: Frontmatter, initiator: string)
    requires NonBlankStr(target) && !IsNoneWord(Strip(target.s)) && VariableName(Strip(target.s)).None?
    ensures var d, node := ResolveTarget(dir, target, fm, initiator), ResolveReference(dir, Strip(target.s));
            if node.Ok? then d == Ok(Delivery(Some(node.value), map[])) else d == Err(TargetUnknown(node.error))
  {
    ReservedVariables();
  }

  lemma {:induction false} SomebodyMeant(dir: seq<Node>, target: Json, fm: Frontmatter, initiator: string)
    requires ResolveTarget(dir, target, fm, initiator).Ok?
    ensures ResolveTarget(dir, target, fm, initiator).value.node.Some?
       <==> NonBlankStr(target) && !IsNoneWord(Strip(target.s))
  {
  }

  /** An accepted target: a fixed reference finds a node whatever the file says, and
      a stage that goes on always has somebody to go to. */
  lemma {:induction false} AcceptedTargetFound(w: World, payload: Fields, fm: Frontmatter, initiator: string)
    requires TargetOk(w, payload)
    ensures var target, d := Get(payload, "target"), ResolveTarget(w.dir, Get(payload, "target"), fm, initiator);
            && (d.Err? ==> target.Str? && VariableName(Strip(target.s)).Some?)
            && (d.Ok? && d.value.node.None? ==> IsTerminal(payload))
  {
    var target := Get(payload, "target");
    if NonBlankStr(target) && !IsNoneWord(Strip(target.s)) && VariableName(Strip(target.s)).None? {
      FixedTarget(w.dir, target, fm, initiator);
    }
    if ResolveTarget(w.dir, target, fm, initiator).Ok? { SomebodyMeant(w.dir, target, fm, initiator); }
  }

  /** On a published definition, a form is left with nobody only where it ends. */
  lemma LeftOnlyAtTheEnd(s: Store, fm: Frontmatter, sender: Node, typeKey: string, graph: Fields)
    requires FormTypeOf(fm) == Some(typeKey) && typeKey in s.active
    requires (typeKey, s.active[typeKey]) in s.graphs && s.graphs[(typeKey, s.active[typeKey])] == Obj(graph)
    requires ValidStageGraph(WorldOf(s.site, typeKey), typeKey, graph)
    requires RouteFile(s, fm, sender).Ok? && RouteFile(s, fm, sender).value.node.None?
    ensures var payload := Get(Get(graph, "stages").fields, RouteFile(s, fm, sender).value.next);
            payload.Obj? && IsTerminal(payload.fields)
  {
    var w, stages := WorldOf(s.site, typeKey), Get(graph, "stages").fields;
    var _, version, g := StepOf(s, fm, sender);
    var r := RouteFile(s, fm, sender).value;
    ValidGraphLoads(w, typeKey, graph);
    var initiator := StepDelivers(s, fm, sender, g, typeKey, version, r.stage, r.decision, r.rawNext);
    var k := KeyIndex(stages, r.next);
    assert StageOk(w, stages, stages[k]);
    AcceptedTargetFound(w, stages[k].1.fields, fm, initiator);
  }

  /** The first stage marked as terminal, by the value true and no other. */
  predicate EndsAt(stages: Fields, i: nat) {
    && i < |stages| && MarkedTerminal(stages[i].1) && forall j :: 0 <= j < i ==> !MarkedTerminal(stages[j].1)
  }

  predicate MarkedTerminal(payload: Json) {
    payload.Obj? && Get(payload.fields, "is_terminal") == Bool(true)
  }

  lemma {:induction false} FirstTerminalIff(stages: Fields)
    ensures FirstTerminal(stages) == Null || FirstTerminal(stages).Str?
    ensures FirstTerminal(stages) == Null <==> !exists i: nat :: EndsAt(stages, i)
    ensures forall i: nat :: EndsAt(stages, i) ==> FirstTerminal(stages) == Str(stages[i].0)
  {
    if stages != [] && !EndsAt(stages, 0) {
      FirstTerminalIff(stages[1..]);
      forall i: nat | EndsAt(stages, i) ensures i > 0 && EndsAt(stages[1..], i - 1) {
        assert forall j :: 0 <= j < i - 1 ==> stages[1..][j] == stages[j + 1];
      }
      if i: nat :| EndsAt(stages[1..], i) {
        EndsShifted(stages, i);
      }
    }
  }

  lemma EndsShifted(stages: Fields, i: nat)
    requires stages != [] && !EndsAt(stages, 0) && EndsAt(stages[1..], i)
    ensures EndsAt(stages, i + 1)
  {
    forall j | 0 <= j < i + 1 ensures !MarkedTerminal(stages[j].1) {
      if j > 0 { assert stages[1..][j - 1] == stages[j]; }
    }
  }

  /** The router steps on exactly the graphs that have stages, a start and an end:
      a named one, or else the first stage and the first terminal stage. */
  lemma LoadsIff(graph: Json)
    ensures LoadStageGraph(graph).Ok? <==>
              && graph.Obj? && Get(graph.fields, "stages").Obj? && Get(graph.fields, "stages").fields != []
              && var stages := Get(graph.fields, "stages").fields;
                 && (NonBlankStr(Get(graph.fields, "start_stage")) || stages[0].0 != "")
                 && (NonBlankStr(Get(graph.fields, "end_stage"))
                     || exists i: nat :: EndsAt(stages, i) && !Blank(stages[i].0))
    ensures LoadStageGraph(graph).Ok? ==>
              var g, stages := LoadStageGraph(graph).value, Get(graph.fields, "stages").fields;
              && g.stages == stages && g.allowlist == Get(graph.fields, "initiator_allowlist")
              && g.start == Strip(if NonBlankStr(Get(graph.fields, "start_stage"))
                                  then Get(graph.fields, "start_stage").s else stages[0].0)
              && (if NonBlankStr(Get(graph.fields, "end_stage")) then g.end == Strip(Get(graph.fields, "end_stage").s)
                  else exists i: nat :: EndsAt(stages, i) && g.end == Strip(stages[i].0))
  {
    if graph.Obj? && Get(graph.fields, "stages").Obj? {
      FirstTerminalIff(Get(graph.fields, "stages").fields);
    }
  }

  /** An accepted definition begins at a stage it names, or at its first one when it
      names none, and ends at a stage it names, from which nothing leads on. */
  lemma AcceptedStartAndEnd(w: World, typeKey: string, graph: Fields)
    requires ValidStageGraph(w, typeKey, graph)
    ensures LoadStageGraph(Obj(graph)).Ok?
    ensures var g, start, end := LoadStageGraph(Obj(graph)).value, Get(graph, "start_stage"), Get(graph, "end_stage");
            && (if start == Null then g.start == Strip(g.stages[0].0)
                else start.Str? && HasKey(g.stages, start.s) && g.start == Strip(start.s))
            && end.Str? && HasKey(g.stages, end.s) && g.end == Strip(end.s)
            && (forall key :: RawStep(g.stages, end.s, key).None? || Blank(key))
            && Get(graph, "form_type") in [Null, Str(typeKey)]
  {
    ValidGraphLoads(w, typeKey, graph);
    var stages, end := Get(graph, "stages").fields, Get(graph, "end_stage").s;
    assert StageOk(w, stages, stages[0]);
    forall key | RawStep(stages, end, key).Some? && !Blank(key) ensures false {
      UsableHas(StageDecisions(Get(stages, end).fields).fields, key);
    }
  }

  // ---------------------------------------------------------------------
  // Every stage can be walked to
  // ---------------------------------------------------------------------

  lemma {:induction false} EdgesHave(stages: Fields, from: string, steps: seq<(string, string)>, i: nat)
    requires i < |steps|
    ensures StepEdge(stages, from, steps[i]) in EdgesFrom(stages, from, steps)
  {
    if i > 0 { EdgesHave(stages, from, steps[1..], i - 1); }
  }

  lemma {:induction false} ProjectHas(all: Fields, rest: Fields, k: nat, i: nat)
    requires k < |rest| && i < |StageSteps(rest[k].1)|
    ensures StepEdge(all, rest[k].0, StageSteps(rest[k].1)[i]) in ProjectFrom(all, rest)
  {
    if k == 0 {
      EdgesHave(all, rest[0].0, StageSteps(rest[0].1), i);
    } else {
      ProjectHas(all, rest[1..], k - 1, i);
    }
  }

  /** Whatever node an accepted target fixes, there is one. */
  lemma FixedHolderExists(w: World, payload: Fields)
    requires TargetOk(w, payload)
    ensures RuleOf(w.dir, HolderRuleOf(Get(payload, "target"))).Some?
  {
    var target := Get(payload, "target");
    if NonBlankStr(target) && !IsNoneWord(Strip(target.s)) && VariableName(Strip(target.s)).None? {
      ReservedVariables();
      StripTrimmed(target.s);
      StripTrimmed(Strip(target.s));
    }
  }

  ghost predicate Joins(g: Ledger.Workflow, e: Ledger.Edge, a: string, b: string) {
    e in g && e.from == a && e.to == b
  }

  lemma StepIsEdge(w: World, typeKey: string, graph: Fields, a: string, b: string) returns (e: Ledger.Edge)
    requires ValidStageGraph(w, typeKey, graph) && UniqueKeys(Get(graph, "stages").fields)
    requires HasKey(Get(graph, "stages").fields, a) && StepsTo(Get(graph, "stages").fields, a, b)
    ensures Joins(WorkflowOf(w.dir, Get(graph, "stages").fields), e, a, b) && HasKey(Get(graph, "stages").fields, b)
  {
    var stages := Get(graph, "stages").fields;
    ValidIsSound(w, typeKey, graph);
    StageStepsValid(stages, a);
    var k := KeyIndex(stages, a);
    GetAt(stages, k);
    var i :| 0 <= i < |StageSteps(Get(stages, a))| && StageSteps(Get(stages, a))[i].1 == b;
    ProjectHas(stages, stages, k, i);
    var m := KeyIndex(stages, b);
    GetAt(stages, m);
    assert StageOk(w, stages, stages[m]);
    FixedHolderExists(w, stages[m].1.fields);
    var projected := StepEdge(stages, a, StageSteps(stages[k].1)[i]);
    e := Ledger.Edge(projected.from, projected.decision, projected.to, RuleOf(w.dir, projected.rule).value);
  }

  ghost predicate StepIs(g: Ledger.Workflow, stages: Fields, a: string, b: string) {
    HasKey(stages, b) && exists e :: Joins(g, e, a, b)
  }

  /** Every step of a defined stage is an edge to a defined stage. */
  ghost predicate StepsAreEdges(g: Ledger.Workflow, stages: Fields) {
    forall a, b :: HasKey(stages, a) && StepsTo(stages, a, b) ==> StepIs(g, stages, a, b)
  }

  lemma {:induction false} AcceptedStepsAreEdges(w: World, typeKey: string, graph: Fields)
    requires ValidStageGraph(w, typeKey, graph) && UniqueKeys(Get(graph, "stages").fields)
    ensures var stages := Get(graph, "stages").fields; StepsAreEdges(WorkflowOf(w.dir, stages), stages)
  {
    var stages := Get(graph, "stages").fields;
    forall a, b | HasKey(stages, a) && StepsTo(stages, a, b) ensures StepIs(WorkflowOf(w.dir, stages), stages, a, b) {
      var e := StepIsEdge(w, typeKey, graph, a, b);
    }
  }

  lemma {:induction false} PathIsWalk(g: Ledger.Workflow, stages: Fields, path: seq<string>)
    returns (walk: seq<Ledger.Edge>)
    requires StepsAreEdges(g, stages) && StagePath(stages, path) && |path| >= 2 && HasKey(stages, path[0])
    ensures Ledger.Walk(g, walk) && walk[0].from == path[0] && walk[|walk| - 1].to == path[|path| - 1]
    decreases |path|
  {
    assert StepsTo(stages, path[0], path[1]);
    assert StepIs(g, stages, path[0], path[1]);
    var e :| Joins(g, e, path[0], path[1]);
    walk := [e];
    if |path| > 2 {
      assert forall i :: 1 <= i < |path[1..]| ==> path[1..][i - 1] == path[i] && path[1..][i] == path[i + 1];
      var rest := PathIsWalk(g, stages, path[1..]);
      walk := [e] + rest;
    }
  }

  lemma {:induction false} PathTo(w: World, typeKey: string, graph: Fields, name: string) returns (path: seq<string>)
    requires ValidStageGraph(w, typeKey, graph) && HasKey(Get(graph, "stages").fields, name)
    ensures StagePath(Get(graph, "stages").fields, path) && path[|path| - 1] == name
    ensures path[0] == StartStage(graph, Get(graph, "stages").fields).s && HasKey(Get(graph, "stages").fields, path[0])
  {
    var stages := Get(graph, "stages").fields;
    var k := KeyIndex(stages, name);
    assert Reaches(stages, StartStage(graph, stages).s, stages[k].0);
    path :| StagePath(stages, path) && path[0] == StartStage(graph, stages).s && path[|path| - 1] == name;
  }

  /** The stage is the start or at the end of a walk from it. */
  ghost predicate Alive(g: Ledger.Workflow, start: string, name: string) {
    name == start
    || exists walk: seq<Ledger.Edge> :: Ledger.Walk(g, walk) && walk[0].from == start && walk[|walk| - 1].to == name
  }

  lemma {:induction false} PathIsAlive(g: Ledger.Workflow, stages: Fields, path: seq<string>)
    requires StepsAreEdges(g, stages) && StagePath(stages, path) && HasKey(stages, path[0])
    ensures Alive(g, path[0], path[|path| - 1])
  {
    if |path| >= 2 {
      var walk := PathIsWalk(g, stages, path);
    }
  }

  /** Every stage of an accepted definition is the start or lies on a walk of the
      ledger's workflow from there: no stage is dead. */
  lemma {:induction false} EveryStageIsAlive(w: World, typeKey: string, graph: Fields, name: string)
    requires ValidStageGraph(w, typeKey, graph) && UniqueKeys(Get(graph, "stages").fields)
    requires HasKey(Get(graph, "stages").fields, name)
    ensures var stages := Get(graph, "stages").fields;
            Alive(WorkflowOf(w.dir, stages), StartStage(graph, stages).s, name)
  {
    var stages := Get(graph, "stages").fields;
    var path := PathTo(w, typeKey, graph, name);
    AcceptedStepsAreEdges(w, typeKey, graph);
    PathIsAlive(WorkflowOf(w.dir, stages), stages, path);
  }
}
