/** From one hop to the next: the text the router writes for a form, and what the
    router reads when the form's next holder queues that text again. */
module Handover {
  import opened Prelude
  import opened Text
  import opened Forest
  import F = Frontmatter
  import opened Router
  import opened Routes
  import opened StageGraph
  import opened Projection

  /** Fields that only one hop is about; a routed text carries none of them over. */
  const TRANSIENT: set<string> := {
    "in_reply_to", "initiator_node_id", "target_node_id", "agent", "stage_skill", "target_agent",
    "previous_decision", "previous_transition", "transition"}

  /** What the router assigns, in order; the hint for the next holder comes last. */
  function Assigned(typeKey: string, formId: string, next: string, agent: string, skill: string, sender: string,
                    hint: string): F.Pairs
  {
    [("form_type", typeKey), ("form_id", formId), ("stage", next), ("agent", agent), ("stage_skill", skill),
     ("decision", ""), ("sender", sender), ("target", ""), ("target_agent", hint)]
  }

  /** A parsed dictionary as the guards look it up. */
  function AsMap(pairs: F.Pairs): (fm: Frontmatter)
    ensures forall key :: key in fm <==> key in F.Keys(pairs)
  {
    map key | key in F.Keys(pairs) :: if F.ValueOf(pairs, key).Some? then F.ValueOf(pairs, key).value else ""
  }

  lemma {:induction false} ValueOfKey(pairs: F.Pairs, key: string)
    ensures key in F.Keys(pairs) <==> F.ValueOf(pairs, key).Some?
  {
    if pairs != [] {
      ValueOfKey(pairs[1..], key);
      assert F.Keys(pairs) == [pairs[0].0] + F.Keys(pairs[1..]);
    }
  }

  lemma MapAt(pairs: F.Pairs, key: string)
    ensures key in AsMap(pairs) <==> F.ValueOf(pairs, key).Some?
    ensures key in AsMap(pairs) ==> F.ValueOf(pairs, key) == Some(AsMap(pairs)[key])
  {
    ValueOfKey(pairs, key);
  }

  lemma {:induction false} LastOfAt(fields: F.Pairs, key: string)
    ensures key !in F.Keys(fields) <==> F.LastOf(fields, key).None?
    ensures NoDup(F.Keys(fields)) ==>
              forall i :: 0 <= i < |fields| && fields[i].0 == key ==> F.LastOf(fields, key) == Some(fields[i].1)
  {
    if fields != [] {
      var before := fields[..|fields| - 1];
      LastOfAt(before, key);
      assert F.Keys(fields) == F.Keys(before) + [fields[|fields| - 1].0];
      assert forall i :: 0 <= i < |before| ==> before[i] == fields[i] && F.Keys(before)[i] == F.Keys(fields)[i];
    }
  }

  lemma AssignedKeys(typeKey: string, formId: string, next: string, agent: string, skill: string, sender: string,
                     hint: string)
    ensures var keys := F.Keys(Assigned(typeKey, formId, next, agent, skill, sender, hint));
            && keys == ["form_type", "form_id", "stage", "agent", "stage_skill", "decision", "sender", "target",
                        "target_agent"]
            && NoDup(keys)
  {
    assert |"form_type"| == 9 && |"form_id"| == 7 && |"stage"| == 5 && |"agent"| == 5 && |"stage_skill"| == 11;
    assert |"decision"| == 8 && |"sender"| == 6 && |"target"| == 6 && |"target_agent"| == 12;
    assert "stage"[0] != "agent"[0] && "sender"[0] != "target"[0];
  }

  /** A form as it is handed on: the dictionary of the text that the next holder gets. */
  function HandedOn(pairs: F.Pairs, fields: F.Pairs): F.Pairs {
    F.SetPairs(F.Without(pairs, TRANSIENT), fields)
  }

  predicate Blankless(value: string) {
    value != "" && Trimmed(value)
  }

  /** A non-empty trimmed value is read back by the guards exactly when it is clean. */
  lemma ReadBackIff(value: string)
    requires Blankless(value)
    ensures !Blank(F.ReadBack(value)) && Strip(F.ReadBack(value)) == value <==> F.CleanValue(value)
  {
    F.ReadBackSameIff(value);
    StripTrimmed(value);
    F.TrimShortens(F.ReadBack(value), IsSpace);
    ReadBackShortens(value);
  }

  lemma ReadBackShortens(value: string)
    ensures |F.ReadBack(value)| <= |value| && (|F.ReadBack(value)| == |value| ==> F.ReadBack(value) == value)
  {
    var t := Trim(value, F.IsNewline);
    F.TrimShortens(value, F.IsNewline);
    F.TrimShortens(t, IsSpace);
    F.TrimShortens(Strip(t), F.IsDoubleQuote);
    F.TrimShortens(Trim(Strip(t), F.IsDoubleQuote), F.IsSingleQuote);
  }

  /** What the next router reads of the text handed on. */
  function ReadNext(pairs: F.Pairs, fields: F.Pairs, body: string): Result<Frontmatter, F.ParseError> {
    var read :- F.Parse(F.Render(HandedOn(pairs, fields), body));
    Ok(AsMap(read.0))
  }

  ghost predicate Printables(pairs: F.Pairs, fields: F.Pairs) {
    F.Printable(pairs) && NoDup(F.Keys(fields)) && forall i :: 0 <= i < |fields| ==> F.PrintablePair(fields[i])
  }

  lemma HandedValue(pairs: F.Pairs, fields: F.Pairs, body: string, key: string)
    requires Printables(pairs, fields)
    ensures var fm := ReadNext(pairs, fields, body);
            var written := if F.LastOf(fields, key).Some? then F.LastOf(fields, key)
                           else if key in TRANSIENT then None else F.ValueOf(pairs, key);
            && fm.Ok? && (key in fm.value <==> written.Some?)
            && (key in fm.value ==> fm.value[key] == F.ReadBack(written.value))
  {
    F.WithoutPrintable(pairs, TRANSIENT);
    F.RoutedPrintable(F.Without(pairs, TRANSIENT), fields);
    F.ReadsBack(HandedOn(pairs, fields), body);
    F.WithoutDrops(pairs, TRANSIENT, key);
    F.SetPairsSet(F.Without(pairs, TRANSIENT), fields, key);
    F.AllReadBackAt(HandedOn(pairs, fields), key);
    MapAt(F.AllReadBack(HandedOn(pairs, fields)), key);
  }

  lemma HandedField(pairs: F.Pairs, fields: F.Pairs, body: string, i: nat)
    requires Printables(pairs, fields) && i < |fields| && Blankless(fields[i].1)
    ensures var fm := ReadNext(pairs, fields, body);
            fm.Ok? && (Given(fm.value, fields[i].0) && Said(fm.value, fields[i].0) == fields[i].1
                       <==> F.CleanValue(fields[i].1))
  {
    HandedValue(pairs, fields, body, fields[i].0);
    LastOfAt(fields, fields[i].0);
    ReadBackIff(fields[i].1);
  }

  lemma NotHanded(pairs: F.Pairs, fields: F.Pairs, body: string, key: string)
    requires Printables(pairs, fields)
    requires if key in F.Keys(fields) then (key, "") in fields else key in TRANSIENT
    ensures ReadNext(pairs, fields, body).Ok? && !Given(ReadNext(pairs, fields, body).value, key)
  {
    HandedValue(pairs, fields, body, key);
    LastOfAt(fields, key);
    StripTrimmed("");
    assert F.ReadBack("") == "";
    if key in F.Keys(fields) {
      var i :| 0 <= i < |fields| && fields[i] == (key, "");
    }
  }

  /** The text names the form's type, its id and the stage it is now at. */
  predicate NamesForm(fm: Frontmatter, typeKey: string, formId: string, stage: string) {
    && Given(fm, "form_type") && Said(fm, "form_type") == typeKey
    && Given(fm, "form_id") && Said(fm, "form_id") == formId
    && Given(fm, "stage") && Said(fm, "stage") == stage
  }

  /** It makes no choice for the next holder: no decision, no target, no initiator. */
  predicate LeavesOpen(fm: Frontmatter) {
    && !Given(fm, "decision") && !Given(fm, "transition") && !Given(fm, "target") && !Given(fm, "target_node_id")
    && !Given(fm, "initiator_node_id")
  }

  lemma {:induction false} HandedOpen(pairs: F.Pairs, fields: F.Pairs, body: string)
    requires Printables(pairs, fields) && ("decision", "") in fields && ("target", "") in fields
    requires "transition" !in F.Keys(fields) && "target_node_id" !in F.Keys(fields)
    requires "initiator_node_id" !in F.Keys(fields) && "decision" in F.Keys(fields) && "target" in F.Keys(fields)
    ensures ReadNext(pairs, fields, body).Ok? && LeavesOpen(ReadNext(pairs, fields, body).value)
  {
    NotHanded(pairs, fields, body, "decision");
    NotHanded(pairs, fields, body, "transition");
    NotHanded(pairs, fields, body, "target");
    NotHanded(pairs, fields, body, "target_node_id");
    NotHanded(pairs, fields, body, "initiator_node_id");
  }

  lemma {:induction false} HandedNames(pairs: F.Pairs, fields: F.Pairs, body: string)
    requires Printables(pairs, fields) && |fields| >= 3
    requires fields[0].0 == "form_type" && fields[1].0 == "form_id" && fields[2].0 == "stage"
    requires Blankless(fields[0].1) && Blankless(fields[1].1) && Blankless(fields[2].1)
    ensures ReadNext(pairs, fields, body).Ok?
    ensures NamesForm(ReadNext(pairs, fields, body).value, fields[0].1, fields[1].1, fields[2].1)
       <==> F.CleanValue(fields[0].1) && F.CleanValue(fields[1].1) && F.CleanValue(fields[2].1)
  {
    HandedField(pairs, fields, body, 0);
    HandedField(pairs, fields, body, 1);
    HandedField(pairs, fields, body, 2);
  }

  /** Whatever form was routed, the text its next holder gets leaves the next choice
      open, and names the form at the stage it was moved to, if and only if the type,
      the id and the stage's name are clean: a stage named in quotes, say, is read
      back without them, and the file is stale from the start. */
  lemma {:induction false} HandedFormIsCurrentIff(pairs: F.Pairs, body: string, typeKey: string, formId: string,
                                                  next: string, agent: string, skill: string, sender: string,
                                                  hint: string)
    requires Blankless(typeKey) && Blankless(formId) && Blankless(next)
    requires Printables(pairs, Assigned(typeKey, formId, next, agent, skill, sender, hint))
    ensures var fm := ReadNext(pairs, Assigned(typeKey, formId, next, agent, skill, sender, hint), body);
            && fm.Ok? && LeavesOpen(fm.value)
            && (NamesForm(fm.value, typeKey, formId, next)
                <==> F.CleanValue(typeKey) && F.CleanValue(formId) && F.CleanValue(next))
  {
    var fields := Assigned(typeKey, formId, next, agent, skill, sender, hint);
    AssignedKeys(typeKey, formId, next, agent, skill, sender, hint);
    assert fields[5] == ("decision", "") && fields[7] == ("target", "");
    assert F.Keys(fields)[5] == "decision" && F.Keys(fields)[7] == "target";
    NotAssigned(F.Keys(fields));
    HandedOpen(pairs, fields, body);
    HandedNames(pairs, fields, body);
  }

  lemma {:induction false} NotAssigned(keys: seq<string>)
    requires |keys| == 9 && |keys[0]| == 9 && |keys[1]| == 7 && |keys[2]| == 5 && |keys[3]| == 5 && |keys[4]| == 11
    requires |keys[5]| == 8 && |keys[6]| == 6 && |keys[7]| == 6 && |keys[8]| == 12
    ensures "transition" !in keys && "target_node_id" !in keys && "initiator_node_id" !in keys
  {
    assert |"transition"| == 10 && |"target_node_id"| == 14 && |"initiator_node_id"| == 17;
    forall i | 0 <= i < |keys| ensures |keys[i]| !in {10, 14, 17} {}
  }

  // ---------------------------------------------------------------------
  // The next hop
  // ---------------------------------------------------------------------

  /** Refusals about which form a file is for and whether it is the sender's turn. */
  predicate AboutForm(e: Refusal) {
    e.NoFormType? || e.FormNotFound? || e.StaleStage? || e.HolderMismatch? || e.NotStartStage? || e.NotAllowed?
  }

  lemma PeopleAndTargets(dir: seq<Node>, fm: Frontmatter, form: Form, sender: Node, target: Json, initiator: string)
    ensures var r := InitiatorId(dir, fm, Some(form), sender); r.Err? ==> !AboutForm(r.error)
    ensures var r := ResolveTarget(dir, target, fm, initiator); r.Err? ==> !AboutForm(r.error)
  {
  }

  lemma {:induction false} KnownFormSteps(s: Store, fm: Frontmatter, sender: Node, g: Loaded, typeKey: string,
                                          version: string, stage: string, key: string, raw: string, form: Form)
    requires FindForm(s, fm) == Ok(Some(form)) && CheckForm(s.site.dir, g, Some(form), stage, sender).Ok?
    ensures var r := RouteStep(s, fm, sender, g, typeKey, version, stage, key, raw);
            && (r.Err? ==> !AboutForm(r.error))
            && (r.Ok? ==> r.value.form == form && r.value.stage == stage)
  {
    var target := StageTarget(g.stages, Strip(raw));
    PeopleAndTargets(s.site.dir, fm, form, sender, target, "");
    if InitiatorId(s.site.dir, fm, Some(form), sender).Ok? {
      PeopleAndTargets(s.site.dir, fm, form, sender, target, InitiatorId(s.site.dir, fm, Some(form), sender).value);
    }
    assert CheckSkill(WorldOf(s.site, typeKey), Get(g.stages, Strip(raw))).Err? ==>
             !AboutForm(CheckSkill(WorldOf(s.site, typeKey), Get(g.stages, Strip(raw))).error);
  }

  lemma DecisionAdded(fm: Frontmatter, decision: string, typeKey: string, formId: string, stage: string, start: string)
    requires NamesForm(fm, typeKey, formId, stage)
    ensures var next := fm["decision" := decision];
            && FormTypeOf(next) == Some(typeKey) && OptionalStr(next, "form_id") == Some(formId)
            && CurrentStage(next, start) == stage
  {
    assert |"form_type"| == 9 && |"form_id"| == 7 && |"stage"| == 5 && |"decision"| == 8;
  }

  /** A file with a form type is refused before its form is looked at, or stepped. */
  lemma {:induction false} RefusedOrStepped(s: Store, fm: Frontmatter, sender: Node)
    returns (g: Loaded, version: string, key: string, raw: string)
    requires FormTypeOf(fm).Some?
    ensures var r := RouteFile(s, fm, sender);
            || (r.Err? && !AboutForm(r.error))
            || r == RouteStep(s, fm, sender, g, FormTypeOf(fm).value, version, CurrentStage(fm, g.start), key, raw)
  {
    var typeKey := FormTypeOf(fm).value;
    g, version, key, raw := Loaded("", "", [], Null), "", "", "";
    if typeKey in s.active && (typeKey, s.active[typeKey]) in s.graphs {
      version := s.active[typeKey];
      var loaded := LoadStageGraph(s.graphs[(typeKey, version)]);
      if loaded.Ok? && DecisionKey(fm).Some? {
        g, key := loaded.value, DecisionKey(fm).value;
        var step := RawStep(g.stages, CurrentStage(fm, g.start), key);
        if step.Some? { raw := step.value; }
      }
    }
  }

  /** So when the holder of a form adds a decision to the file it was handed and
      queues it, the file is for that form, at the stage the ledger has it at. */
  lemma {:induction false} NextHopIsNotStale(s: Store, fm: Frontmatter, decision: string, holder: Node,
                                             typeKey: string, formId: string, stage: string)
    requires NamesForm(fm, typeKey, formId, stage) && formId in s.forms && s.forms[formId].entry.status == stage
    requires s.forms[formId].entry.holder in [None, Some(""), Some(holder.id)]
    ensures var r := RouteFile(s, fm["decision" := decision], holder);
            && (r.Err? ==> !AboutForm(r.error))
            && (r.Ok? ==> r.value.form == s.forms[formId] && r.value.stage == stage)
  {
    var next := fm["decision" := decision];
    DecisionAdded(fm, decision, typeKey, formId, stage, "");
    var g, version, key, raw := RefusedOrStepped(s, next, holder);
    DecisionAdded(fm, decision, typeKey, formId, stage, g.start);
    KnownFormSteps(s, next, holder, g, typeKey, version, stage, key, raw, s.forms[formId]);
  }
}
