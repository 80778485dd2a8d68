/** The registry of form types: versions, their lifecycle, and the sync that
    brings it in line with the workspace. */
module Registry {
  import opened Prelude
  import opened Text
  import Forest
  import opened Directory
  import opened StageGraph
  import opened Projection
  import StageValidator
  import Router

  datatype Lifecycle = Draft | Validated | Active | Deprecated

  datatype Definition = Definition(state: Lifecycle, graph: Fields, hasErrors: bool)

  /** A form type and one of its versions; unique in the registry. */
  type Key = (string, string)

  type Definitions = map<Key, Definition>

  /** What validation consults: nodes and skills for stage graphs, and which
      definitions in the two older formats are accepted. */
  datatype Checks = Checks(site: Site, others: set<(string, Fields)>)

  predicate TypeKeyOk(typeKey: string) {
    && typeKey != "" && 'a' <= typeKey[0] <= 'z'
    && forall i :: 0 <= i < |typeKey| ==>
         'a' <= typeKey[i] <= 'z' || '0' <= typeKey[i] <= '9' || typeKey[i] == '_'
  }

  predicate IsStageGraph(graph: Fields) {
    Get(graph, "stages").Obj?
  }

  /** Stage names of a decoded graph are unique. */
  ghost predicate WellKeyed(graph: Fields) {
    IsStageGraph(graph) ==> UniqueKeys(Get(graph, "stages").fields)
  }

  ghost predicate Accepts(c: Checks, typeKey: string, graph: Fields) {
    if IsStageGraph(graph) then TypeKeyOk(typeKey) && ValidStageGraph(WorldOf(c.site, typeKey), typeKey, graph)
    else (typeKey, graph) in c.others
  }

  method Validate(c: Checks, typeKey: string, graph: Fields) returns (valid: bool)
    requires WellKeyed(graph)
    ensures valid <==> Accepts(c, typeKey, graph)
  {
    if IsStageGraph(graph) {
      var problems := StageValidator.ValidateStageGraph(WorldOf(c.site, typeKey), typeKey, graph);
      valid := TypeKeyOk(typeKey) && problems == [];
    } else {
      valid := (typeKey, graph) in c.others;
    }
  }

  function NormalizeGraph(graph: Fields): Fields {
    if IsStageGraph(graph) then Put(graph, "stages", Obj(NormalizeStages(Get(graph, "stages").fields))) else graph
  }

  lemma {:induction false} NormalizeKeepsKeys(stages: Fields)
    ensures forall i :: 0 <= i < |stages| ==> NormalizeStages(stages)[i].0 == stages[i].0
  {
    if stages != [] { NormalizeKeepsKeys(stages[1..]); }
  }

  lemma NormalizeWellKeyed(graph: Fields)
    requires WellKeyed(graph)
    ensures WellKeyed(NormalizeGraph(graph)) && (IsStageGraph(NormalizeGraph(graph)) <==> IsStageGraph(graph))
  {
    if IsStageGraph(graph) {
      var stages := Get(graph, "stages").fields;
      GetPut(graph, "stages", Obj(NormalizeStages(stages)), "stages");
      NormalizeKeepsKeys(stages);
    }
  }

  // ---------------------------------------------------------------------
  // Actions as functions of the registry
  // ---------------------------------------------------------------------

  /** The state change, and with `alone` the demotion of other active versions. */
  function WithLifecycle(defs: Definitions, key: Key, state: Lifecycle, hasErrors: bool, alone: bool): Definitions
    requires key in defs
  {
    var others := map k | k in defs ::
                    if alone && state.Active? && k.0 == key.0 && k.1 != key.1 && defs[k].state.Active?
                    then defs[k].(state := Validated) else defs[k];
    others[key := defs[key].(state := state, hasErrors := hasErrors)]
  }

  predicate MayDistribute(graph: Fields, distributed: bool) {
    IsStageGraph(graph) ==> distributed
  }

  /** Creating or replacing one version; an invalid one cannot be stored active. */
  ghost function Upserted(c: Checks, defs: Definitions, key: Key, state: Lifecycle, graph: Fields, distributed: bool):
    Definitions
  {
    var g := NormalizeGraph(graph);
    if !TypeKeyOk(key.0) then defs
    else if state.Active? && (!Accepts(c, key.0, g) || !MayDistribute(g, distributed)) then defs
    else
      var stored := defs[key := Definition(state, g, !Accepts(c, key.0, g))];
      if state.Active? then WithLifecycle(stored, key, Active, false, true) else stored
  }

  ghost function ValidatedDefs(c: Checks, defs: Definitions, key: Key): Definitions {
    if key !in defs then defs
    else
      var valid := Accepts(c, key.0, defs[key].graph);
      WithLifecycle(defs, key, if valid then Validated else Draft, !valid, false)
  }

  ghost predicate CanActivate(c: Checks, defs: Definitions, key: Key, distributed: bool) {
    key in defs && Accepts(c, key.0, defs[key].graph) && MayDistribute(defs[key].graph, distributed)
  }

  ghost function Activated(c: Checks, defs: Definitions, key: Key, distributed: bool): Definitions {
    if CanActivate(c, defs, key, distributed) then WithLifecycle(defs, key, Active, false, true) else defs
  }

  function DeprecatedDefs(defs: Definitions, key: Key): Definitions {
    if key in defs then WithLifecycle(defs, key, Deprecated, false, false) else defs
  }

  /** The built-in message type is installed, unvalidated, when no version of it exists. */
  ghost function WithBuiltin(defs: Definitions, version: string, graph: Fields): Definitions {
    if exists k :: k in defs && k.0 == "message" then defs
    else defs[("message", version) := Definition(Active, graph, false)]
  }

  /** One workflow file as the sync finds it. */
  datatype Package =
    | Unreadable
    | Package(typeKey: string, version: string, graph: Fields, differs: bool, distributed: bool, upsertSaved: bool,
              activateSaved: bool)

  datatype Synced = Synced(defs: Definitions, keys: set<Key>)

  function Stamped(p: Package): Fields
    requires p.Package?
  {
    NormalizeGraph(Put(Put(p.graph, "form_type", Str(p.typeKey)), "version", Str(p.version)))
  }

  /** Storing one package; one that fails on the way is not counted as synced. */
  ghost function SyncOne(c: Checks, s: Synced, p: Package, activate: bool): Synced {
    if p.Unreadable? || p.typeKey == "" || p.version == "" || !Accepts(c, p.typeKey, Stamped(p)) then s
    else
      var key := (p.typeKey, p.version);
      var changed := key !in s.defs || p.differs;
      var stored := if changed then Upserted(c, s.defs, key, Draft, Stamped(p), p.distributed) else s.defs;
      if changed && (!TypeKeyOk(p.typeKey) || !p.upsertSaved || !Accepts(c, p.typeKey, NormalizeGraph(Stamped(p)))) then
        s.(defs := stored)
      else if !activate then Synced(stored, s.keys + {key})
      else
        var active := Activated(c, stored, key, p.distributed);
        if CanActivate(c, stored, key, p.distributed) && p.activateSaved then Synced(active, s.keys + {key})
        else s.(defs := active)
  }

  ghost function SyncAll(c: Checks, s: Synced, packages: seq<Package>, activate: bool): Synced
    decreases |packages|
  {
    if packages == [] then s else SyncAll(c, SyncOne(c, s, packages[0], activate), packages[1..], activate)
  }

  function Pruned(defs: Definitions, synced: set<Key>, referenced: set<Key>): Definitions {
    map k | k in defs && (k in synced || k in referenced) :: defs[k]
  }

  ghost function SyncedDefs(c: Checks, defs: Definitions, packages: seq<Package>, activate: bool, prune: bool,
                            referenced: set<Key>): Definitions
  {
    var s := SyncAll(c, Synced(defs, {}), packages, activate);
    if prune then Pruned(s.defs, s.keys, referenced) else s.defs
  }

  // ---------------------------------------------------------------------
  // The registry
  // ---------------------------------------------------------------------

  datatype Failure = NotFound | Rejected

  class FormRegistry {
    var definitions: Definitions
    /** The definition each ledger form is bound to. */
    var forms: map<string, Key>

    ghost predicate Valid()
      reads this
    {
      forall k :: k in definitions ==> WellKeyed(definitions[k].graph)
    }

    constructor (forms: map<string, Key>)
      ensures Valid() && definitions == map[] && this.forms == forms
    {
      definitions := map[];
      this.forms := forms;
    }

    method SetFormTypeLifecycle(key: Key, state: Lifecycle, hasErrors: bool, deactivateOthers: bool)
      returns (r: Result<Definition, Failure>)
      requires Valid()
      modifies this`definitions
      ensures Valid()
      ensures r.Ok? <==> key in old(definitions)
      ensures r.Ok? ==> definitions == WithLifecycle(old(definitions), key, state, hasErrors, deactivateOthers)
                        && r.value == definitions[key]
      ensures r.Err? ==> definitions == old(definitions)
    {
      if key !in definitions {
        return Err(NotFound);
      }
      var definition := definitions[key];
      if deactivateOthers && state.Active? {
        definitions := map k | k in definitions ::
                         if k.0 == key.0 && k.1 != key.1 && definitions[k].state.Active?
                         then definitions[k].(state := Validated) else definitions[k];
      }
      definitions := definitions[key := definition.(state := state, hasErrors := hasErrors)];
      assert definitions == WithLifecycle(old(definitions), key, state, hasErrors, deactivateOthers);
      r := Ok(definitions[key]);
    }

    method UpsertFormType(c: Checks, key: Key, state: Lifecycle, graph: Fields, distributed: bool)
      returns (r: Result<bool, Failure>)
      requires Valid() && WellKeyed(graph)
      modifies this`definitions
      ensures Valid() && definitions == Upserted(c, old(definitions), key, state, graph, distributed)
      ensures r.Ok? ==> TypeKeyOk(key.0) && (r.value <==> Accepts(c, key.0, NormalizeGraph(graph)))
      ensures r.Err? ==> definitions == old(definitions)
      ensures var g := NormalizeGraph(graph);
              r.Err? <==>
                !TypeKeyOk(key.0) || (state.Active? && (!Accepts(c, key.0, g) || !MayDistribute(g, distributed)))
    {
      var g := NormalizeGraph(graph);
      NormalizeWellKeyed(graph);
      if !TypeKeyOk(key.0) {
        return Err(Rejected);
      }
      var valid := Validate(c, key.0, g);
      if state.Active? && !valid {
        return Err(Rejected);
      }
      if state.Active? && IsStageGraph(g) && !distributed {
        return Err(Rejected);
      }
      definitions := definitions[key := Definition(state, g, !valid)];
      if state.Active? {
        var _ := SetFormTypeLifecycle(key, Active, false, true);
      }
      r := Ok(valid);
    }

    method ValidateFormType(c: Checks, key: Key) returns (r: Result<bool, Failure>)
      requires Valid()
      modifies this`definitions
      ensures Valid() && definitions == ValidatedDefs(c, old(definitions), key)
      ensures r.Ok? <==> key in old(definitions)
      ensures r.Ok? ==> (r.value <==> Accepts(c, key.0, old(definitions)[key].graph))
    {
      if key !in definitions {
        return Err(NotFound);
      }
      var valid := Validate(c, key.0, definitions[key].graph);
      var _ := SetFormTypeLifecycle(key, if valid then Validated else Draft, !valid, false);
      r := Ok(valid);
    }

    method ActivateFormType(c: Checks, key: Key, distributed: bool) returns (r: Result<Definition, Failure>)
      requires Valid()
      modifies this`definitions
      ensures Valid() && definitions == Activated(c, old(definitions), key, distributed)
      ensures r.Ok? <==> CanActivate(c, old(definitions), key, distributed)
    {
      if key !in definitions {
        return Err(NotFound);
      }
      var graph := definitions[key].graph;
      var valid := Validate(c, key.0, graph);
      if !valid {
        return Err(Rejected);
      }
      if IsStageGraph(graph) && !distributed {
        return Err(Rejected);
      }
      r := SetFormTypeLifecycle(key, Active, false, true);
    }

    method DeprecateFormType(key: Key) returns (r: Result<Definition, Failure>)
      requires Valid()
      modifies this`definitions
      ensures Valid() && definitions == DeprecatedDefs(old(definitions), key)
      ensures r.Ok? <==> key in old(definitions)
    {
      r := SetFormTypeLifecycle(key, Deprecated, false, false);
    }

    method DeleteFormTypeDefinition(key: Key) returns (deleted: bool)
      requires Valid()
      modifies this`definitions
      ensures Valid() && definitions == old(definitions) - {key} && (deleted <==> key in old(definitions))
    {
      deleted := key in definitions;
      definitions := definitions - {key};
    }

    method EnsureBuiltinMessageFormType(version: string, graph: Fields) returns (r: Result<Definition, Failure>)
      requires Valid() && WellKeyed(graph)
      modifies this`definitions
      ensures Valid() && definitions == WithBuiltin(old(definitions), version, graph)
      ensures r.Ok? ==> r.value.state.Active?
    {
      if active :| active in definitions && active.0 == "message" && definitions[active].state.Active? {
        return Ok(definitions[active]);
      }
      if existing :| existing in definitions && existing.0 == "message" {
        return Err(NotFound);
      }
      definitions := definitions[("message", version) := Definition(Active, graph, false)];
      r := Ok(Definition(Active, graph, false));
    }

    /** One package of the sync. */
    method SyncPackage(c: Checks, p: Package, activate: bool, keys: set<Key>) returns (keys': set<Key>)
      requires Valid() && (p.Package? ==> WellKeyed(p.graph))
      modifies this`definitions
      ensures Valid() && Synced(definitions, keys') == SyncOne(c, Synced(old(definitions), keys), p, activate)
    {
      keys' := keys;
      if p.Unreadable? || p.typeKey == "" || p.version == "" {
        return;
      }
      var key, graph := (p.typeKey, p.version), Stamped(p);
      StampedWellKeyed(p);
      var valid := Validate(c, p.typeKey, graph);
      if !valid {
        return;
      }
      if key !in definitions || p.differs {
        var upserted := UpsertFormType(c, key, Draft, graph, p.distributed);
        if upserted.Err? || !p.upsertSaved || !upserted.value {
          return;
        }
      }
      if activate {
        var activated := ActivateFormType(c, key, p.distributed);
        if activated.Err? || !p.activateSaved {
          return;
        }
      }
      keys' := keys + {key};
    }

    method PruneMissing(synced: set<Key>)
      requires Valid()
      modifies this`definitions
      ensures Valid() && definitions == Pruned(old(definitions), synced, forms.Values)
    {
      var todo := definitions.Keys;
      while todo != {}
        invariant Valid() && todo <= definitions.Keys
        invariant forall k :: k in definitions ==> k in old(definitions) && definitions[k] == old(definitions)[k]
        invariant forall k :: k in old(definitions) && k !in todo ==>
                    (k in definitions <==> k in synced || k in forms.Values)
        decreases todo
      {
        var key :| key in todo;
        todo := todo - {key};
        if key !in synced && key !in forms.Values {
          var _ := DeleteFormTypeDefinition(key);
        }
      }
    }

    method SyncWorkspaceFormTypes(c: Checks, packages: seq<Package>, activate: bool, pruneMissing: bool)
      requires Valid() && forall i :: 0 <= i < |packages| && packages[i].Package? ==> WellKeyed(packages[i].graph)
      modifies this`definitions
      ensures Valid()
      ensures definitions == SyncedDefs(c, old(definitions), packages, activate, pruneMissing, forms.Values)
    {
      var keys: set<Key> := {};
      var i := 0;
      while i < |packages|
        invariant 0 <= i <= |packages| && Valid()
        invariant SyncAll(c, Synced(definitions, keys), packages[i..], activate)
               == SyncAll(c, Synced(old(definitions), {}), packages, activate)
      {
        assert packages[i..][0] == packages[i] && packages[i..][1..] == packages[i + 1..];
        keys := SyncPackage(c, packages[i], activate, keys);
        i := i + 1;
      }
      if pruneMissing {
        PruneMissing(keys);
      }
    }
  }

  lemma StampedWellKeyed(p: Package)
    requires p.Package? && WellKeyed(p.graph)
    ensures WellKeyed(Stamped(p))
  {
    var named := Put(p.graph, "form_type", Str(p.typeKey));
    GetPut(p.graph, "form_type", Str(p.typeKey), "stages");
    GetPut(named, "version", Str(p.version), "stages");
    NormalizeWellKeyed(Put(named, "version", Str(p.version)));
  }

  // ---------------------------------------------------------------------
  // Runs
  // ---------------------------------------------------------------------

  datatype Action =
    | Upsert(key: Key, state: Lifecycle, graph: Fields, distributed: bool)
    | Check(key: Key)
    | Activate(key: Key, distributed: bool)
    | Deprecate(key: Key)
    | Delete(key: Key)
    | Builtin(version: string, graph: Fields)
    | Sync(packages: seq<Package>, activate: bool, prune: bool, referenced: set<Key>)

  /** An action in the world of its day: nodes and skills come and go between actions. */
  datatype Step = Step(checks: Checks, action: Action)

  ghost function Apply(c: Checks, defs: Definitions, a: Action): Definitions {
    match a
    case Upsert(key, state, graph, distributed) => Upserted(c, defs, key, state, graph, distributed)
    case Check(key) => ValidatedDefs(c, defs, key)
    case Activate(key, distributed) => Activated(c, defs, key, distributed)
    case Deprecate(key) => DeprecatedDefs(defs, key)
    case Delete(key) => defs - {key}
    case Builtin(version, graph) => WithBuiltin(defs, version, graph)
    case Sync(packages, activate, prune, referenced) => SyncedDefs(c, defs, packages, activate, prune, referenced)
  }

  ghost function Run(defs: Definitions, steps: seq<Step>): Definitions
    decreases |steps|
  {
    if steps == [] then defs else Run(Apply(steps[0].checks, defs, steps[0].action), steps[1..])
  }

  ghost predicate AtMostOneActive(defs: Definitions) {
    forall j, k :: j in defs && k in defs && j.0 == k.0 && defs[j].state.Active? && defs[k].state.Active? ==> j == k
  }

  /** Accepted by validation in some world. */
  ghost predicate AcceptedOnce(typeKey: string, graph: Fields) {
    exists c :: Accepts(c, typeKey, graph)
  }

  /** Only the built-in message type can be active without ever having been accepted. */
  ghost predicate ActiveAccepted(defs: Definitions) {
    forall k :: k in defs && defs[k].state.Active? && k.0 != "message" ==> AcceptedOnce(k.0, defs[k].graph)
  }

  ghost predicate Sound(defs: Definitions) {
    AtMostOneActive(defs) && ActiveAccepted(defs)
  }

  lemma LifecycleKeepsSound(defs: Definitions, key: Key, state: Lifecycle, hasErrors: bool, alone: bool)
    requires Sound(defs) && key in defs
    requires state.Active? ==> alone && AcceptedOnce(key.0, defs[key].graph)
    ensures Sound(WithLifecycle(defs, key, state, hasErrors, alone))
  {
  }

  lemma UpsertKeepsSound(c: Checks, defs: Definitions, key: Key, state: Lifecycle, graph: Fields, distributed: bool)
    requires Sound(defs)
    ensures Sound(Upserted(c, defs, key, state, graph, distributed))
  {
    var g := NormalizeGraph(graph);
    if state.Active? {
      if Accepts(c, key.0, g) {
        assert AcceptedOnce(key.0, g);
        StoredActiveIsSound(defs, key, g);
      }
    } else {
      StoredIsSound(defs, key, Definition(state, g, !Accepts(c, key.0, g)));
    }
  }

  lemma StoredIsSound(defs: Definitions, key: Key, definition: Definition)
    requires Sound(defs) && !definition.state.Active?
    ensures Sound(defs[key := definition])
  {
  }

  lemma StoredActiveIsSound(defs: Definitions, key: Key, graph: Fields)
    requires Sound(defs) && AcceptedOnce(key.0, graph)
    ensures Sound(WithLifecycle(defs[key := Definition(Active, graph, false)], key, Active, false, true))
  {
    var stored := defs[key := Definition(Active, graph, false)];
    assert stored - {key} == defs - {key};
    AloneIsSound(stored, key);
  }

  /** Activating one version demotes the others of its type, whatever it was before. */
  lemma AloneIsSound(stored: Definitions, key: Key)
    requires key in stored && Sound(stored - {key}) && AcceptedOnce(key.0, stored[key].graph)
    ensures Sound(WithLifecycle(stored, key, Active, false, true))
  {
    AloneActive(stored, key);
    SoundWhenAlone(stored, WithLifecycle(stored, key, Active, false, true), key);
  }

  /** `key` is active, and of the others those of other types that were. */
  ghost predicate Alone(stored: Definitions, after: Definitions, key: Key) {
    && after.Keys == stored.Keys
    && forall k :: k in after ==>
         && after[k].graph == stored[k].graph
         && (after[k].state.Active? <==> k == key || (stored[k].state.Active? && k.0 != key.0))
  }

  lemma AloneActive(stored: Definitions, key: Key)
    requires key in stored
    ensures Alone(stored, WithLifecycle(stored, key, Active, false, true), key)
  {
  }

  lemma SoundWhenAlone(stored: Definitions, after: Definitions, key: Key)
    requires key in stored && Alone(stored, after, key)
    requires Sound(stored - {key}) && AcceptedOnce(key.0, stored[key].graph)
    ensures Sound(after)
  {
    var others := stored - {key};
    forall k | k in after && after[k].state.Active? && k != key
      ensures k in others && others[k] == stored[k] && stored[k].state.Active? && k.0 != key.0
    {
    }
  }

  lemma ActivateKeepsSound(c: Checks, defs: Definitions, key: Key, distributed: bool)
    requires Sound(defs)
    ensures Sound(Activated(c, defs, key, distributed))
  {
    if CanActivate(c, defs, key, distributed) {
      assert AcceptedOnce(key.0, defs[key].graph);
      LifecycleKeepsSound(defs, key, Active, false, true);
    }
  }

  lemma SyncOneKeepsSound(c: Checks, s: Synced, p: Package, activate: bool)
    requires Sound(s.defs)
    ensures Sound(SyncOne(c, s, p, activate).defs)
  {
    if p.Package? {
      var key := (p.typeKey, p.version);
      UpsertKeepsSound(c, s.defs, key, Draft, Stamped(p), p.distributed);
      var stored := if key !in s.defs || p.differs then Upserted(c, s.defs, key, Draft, Stamped(p), p.distributed)
                    else s.defs;
      ActivateKeepsSound(c, stored, key, p.distributed);
    }
  }

  lemma {:induction false} SyncKeepsSound(c: Checks, s: Synced, packages: seq<Package>, activate: bool)
    requires Sound(s.defs)
    ensures Sound(SyncAll(c, s, packages, activate).defs)
    decreases |packages|
  {
    if packages != [] {
      SyncOneKeepsSound(c, s, packages[0], activate);
      SyncKeepsSound(c, SyncOne(c, s, packages[0], activate), packages[1..], activate);
    }
  }

  lemma ActionKeepsSound(c: Checks, defs: Definitions, a: Action)
    requires Sound(defs)
    ensures Sound(Apply(c, defs, a))
  {
    match a
    case Upsert(key, state, graph, distributed) => UpsertKeepsSound(c, defs, key, state, graph, distributed);
    case Activate(key, distributed) => ActivateKeepsSound(c, defs, key, distributed);
    case Sync(packages, activate, prune, referenced) => SyncKeepsSound(c, Synced(defs, {}), packages, activate);
    case _ =>
  }

  /** After any run of actions, each in its own world, each form type has at most
      one active version, and what is active was accepted when it became so. */
  lemma {:induction false} EveryRunIsSound(defs: Definitions, steps: seq<Step>)
    requires Sound(defs)
    ensures Sound(Run(defs, steps))
    decreases |steps|
  {
    if steps != [] {
      ActionKeepsSound(steps[0].checks, defs, steps[0].action);
      EveryRunIsSound(Apply(steps[0].checks, defs, steps[0].action), steps[1..]);
    }
  }

  // Decoded objects have unique keys, and every action keeps that.

  ghost predicate WellKeyedDefs(defs: Definitions) {
    forall k :: k in defs ==> WellKeyed(defs[k].graph)
  }

  ghost predicate WellKeyedPackages(packages: seq<Package>) {
    forall i :: 0 <= i < |packages| && packages[i].Package? ==> WellKeyed(packages[i].graph)
  }

  ghost predicate WellKeyedAction(a: Action) {
    match a
    case Upsert(_, _, graph, _) => WellKeyed(graph)
    case Builtin(_, graph) => WellKeyed(graph)
    case Sync(packages, _, _, _) => WellKeyedPackages(packages)
    case _ => true
  }

  lemma UpsertKeepsWellKeyed(c: Checks, defs: Definitions, key: Key, state: Lifecycle, graph: Fields, distributed: bool)
    requires WellKeyedDefs(defs) && WellKeyed(graph)
    ensures WellKeyedDefs(Upserted(c, defs, key, state, graph, distributed))
  {
    NormalizeWellKeyed(graph);
  }

  lemma ActivateKeepsWellKeyed(c: Checks, defs: Definitions, key: Key, distributed: bool)
    requires WellKeyedDefs(defs)
    ensures WellKeyedDefs(Activated(c, defs, key, distributed))
  {
  }

  /** Storing one package ends in the old registry, the stored draft or the activated version. */
  lemma SyncOneCases(c: Checks, s: Synced, p: Package, activate: bool)
    requires p.Package?
    ensures var key, after := (p.typeKey, p.version), SyncOne(c, s, p, activate).defs;
            var stored := Upserted(c, s.defs, key, Draft, Stamped(p), p.distributed);
            || after in [s.defs, stored]
            || after == Activated(c, s.defs, key, p.distributed)
            || after == Activated(c, stored, key, p.distributed)
  {
  }

  lemma SyncOneKeepsWellKeyed(c: Checks, s: Synced, p: Package, activate: bool)
    requires WellKeyedDefs(s.defs) && (p.Package? ==> WellKeyed(p.graph))
    ensures WellKeyedDefs(SyncOne(c, s, p, activate).defs)
  {
    if p.Package? {
      var key := (p.typeKey, p.version);
      StampedWellKeyed(p);
      UpsertKeepsWellKeyed(c, s.defs, key, Draft, Stamped(p), p.distributed);
      ActivateKeepsWellKeyed(c, s.defs, key, p.distributed);
      ActivateKeepsWellKeyed(c, Upserted(c, s.defs, key, Draft, Stamped(p), p.distributed), key, p.distributed);
      SyncOneCases(c, s, p, activate);
    }
  }

  lemma {:induction false} SyncKeepsWellKeyed(c: Checks, s: Synced, packages: seq<Package>, activate: bool)
    requires WellKeyedDefs(s.defs) && WellKeyedPackages(packages)
    ensures WellKeyedDefs(SyncAll(c, s, packages, activate).defs)
    decreases |packages|
  {
    if packages != [] {
      SyncOneKeepsWellKeyed(c, s, packages[0], activate);
      SyncKeepsWellKeyed(c, SyncOne(c, s, packages[0], activate), packages[1..], activate);
    }
  }

  lemma {:induction false} RunKeepsWellKeyed(defs: Definitions, steps: seq<Step>)
    requires WellKeyedDefs(defs) && forall i :: 0 <= i < |steps| ==> WellKeyedAction(steps[i].action)
    ensures WellKeyedDefs(Run(defs, steps))
    decreases |steps|
  {
    if steps != [] {
      var c, a := steps[0].checks, steps[0].action;
      if a.Upsert? {
        UpsertKeepsWellKeyed(c, defs, a.key, a.state, a.graph, a.distributed);
      } else if a.Sync? {
        SyncKeepsWellKeyed(c, Synced(defs, {}), a.packages, a.activate);
      }
      RunKeepsWellKeyed(Apply(c, defs, a), steps[1..]);
    }
  }

  lemma SyncOneOnlyAdds(c: Checks, s: Synced, p: Package, activate: bool)
    ensures s.defs.Keys <= SyncOne(c, s, p, activate).defs.Keys
  {
  }

  lemma {:induction false} SyncOnlyAdds(c: Checks, s: Synced, packages: seq<Package>, activate: bool)
    ensures s.defs.Keys <= SyncAll(c, s, packages, activate).defs.Keys
    decreases |packages|
  {
    if packages != [] {
      SyncOneOnlyAdds(c, s, packages[0], activate);
      SyncOnlyAdds(c, SyncOne(c, s, packages[0], activate), packages[1..], activate);
    }
  }

  /** A sync never deletes a definition that some ledger form is bound to, and a
      pruning sync keeps nothing else that it did not just sync. */
  lemma SyncKeepsReferenced(c: Checks, defs: Definitions, packages: seq<Package>, activate: bool, prune: bool,
                            referenced: set<Key>)
    ensures var after := SyncedDefs(c, defs, packages, activate, prune, referenced);
            && (forall k :: k in defs && k in referenced ==> k in after)
            && (prune ==> forall k :: k in after ==>
                  k in referenced || k in SyncAll(c, Synced(defs, {}), packages, activate).keys)
  {
    SyncOnlyAdds(c, Synced(defs, {}), packages, activate);
  }

  // ---------------------------------------------------------------------
  // From the registry to the router
  // ---------------------------------------------------------------------

  /** What the router reads from the registry: an active version of each type that
      has one, and every definition. */
  ghost predicate ReadsFrom(s: Router.Store, defs: Definitions) {
    && (forall t :: t in s.active ==> (t, s.active[t]) in defs && defs[(t, s.active[t])].state.Active?)
    && (forall k :: k in defs && defs[k].state.Active? ==> k.0 in s.active)
    && (forall k :: k in s.graphs <==> k in defs)
    && (forall k :: k in defs ==> s.graphs[k] == Obj(defs[k].graph))
  }

  /** After any run the registry determines what the router reads. */
  lemma {:induction false} OneActiveVersion(steps: seq<Step>, s: Router.Store, other: Router.Store)
    requires ReadsFrom(s, Run(map[], steps)) && ReadsFrom(other, Run(map[], steps))
    ensures s.active == other.active && s.graphs == other.graphs
  {
    EveryRunIsSound(map[], steps);
    SameReading(Run(map[], steps), s, other);
  }

  lemma SameReading(defs: Definitions, s: Router.Store, other: Router.Store)
    requires AtMostOneActive(defs) && ReadsFrom(s, defs) && ReadsFrom(other, defs)
    ensures s.active == other.active && s.graphs == other.graphs
  {
    ActiveAgree(defs, s, other);
    ActiveAgree(defs, other, s);
  }

  lemma ActiveAgree(defs: Definitions, s: Router.Store, other: Router.Store)
    requires AtMostOneActive(defs) && ReadsFrom(s, defs) && ReadsFrom(other, defs)
    ensures forall t :: t in s.active ==> t in other.active && other.active[t] == s.active[t]
  {
    forall t | t in s.active ensures t in other.active && other.active[t] == s.active[t] {
      var mine := (t, s.active[t]);
      assert mine in defs && defs[mine].state.Active?;
      var theirs := (t, other.active[t]);
      assert theirs in defs && defs[theirs].state.Active?;
    }
  }

  /** Whatever registry actions came before, in whatever worlds: the ledger's
      transition agrees with a routed file's delivery exactly when the next
      stage's name is trimmed and no other decision of the stage strips to the
      same key; for all types but the built-in one the second holds by itself. */
  lemma {:induction false} RoutingAfterAnyRun(steps: seq<Step>, s: Router.Store, fm: Router.Frontmatter,
                                              sender: Forest.Node)
    requires ReadsFrom(s, Run(map[], steps)) && forall i :: 0 <= i < |steps| ==> WellKeyedAction(steps[i].action)
    requires ValidDirectory(s.site.dir) && sender in s.site.dir && Router.RouteFile(s, fm, sender).Ok?
    requires Router.BoundToActive(s, fm, Router.RouteFile(s, fm, sender).value.form)
    ensures var r := Router.RouteFile(s, fm, sender).value;
            var stages := Router.BoundStages(s, r.form);
            && (Router.LedgerAgrees(s, sender, r)
                <==> Trimmed(r.rawNext) && Router.SingleStep(stages, r.stage, r.decision))
            && (r.form.typeKey != "message" ==> Router.SingleStep(stages, r.stage, r.decision))
  {
    var defs, r := Run(map[], steps), Router.RouteFile(s, fm, sender).value;
    var key := (r.form.typeKey, r.form.version);
    EveryRunIsSound(map[], steps);
    RunKeepsWellKeyed(map[], steps);
    Router.RouteFacts(s, fm, sender);
    assert key in defs && defs[key].state.Active? && WellKeyed(defs[key].graph);
    Router.RouterAndLedgerAgreeIff(s, fm, sender);
    if r.form.typeKey != "message" {
      AcceptedIsSound(r.form.typeKey, defs[key].graph);
      Router.SoundIsSingle(Router.BoundStages(s, r.form), r.stage, r.decision);
    }
  }

  lemma AcceptedIsSound(typeKey: string, graph: Fields)
    requires AcceptedOnce(typeKey, graph) && WellKeyed(graph) && IsStageGraph(graph)
    ensures SoundStages(Get(graph, "stages").fields)
  {
    var c :| Accepts(c, typeKey, graph);
    ValidIsSound(WorldOf(c.site, typeKey), typeKey, graph);
  }
}
