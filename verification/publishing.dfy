/** What registry actions achieve: which version of a form type the router steps
    files on after an activation, an upsert, a deprecation or a sync. */
module Publishing {
  import opened Prelude
  import opened StageGraph
  import opened Projection
  import opened Registry
  import Router

  /** Every store that reads the registry steps files of the type on this version. */
  ghost predicate ReadAs(defs: Definitions, key: Key) {
    forall s :: ReadsFrom(s, defs) ==> key.0 in s.active && s.active[key.0] == key.1
  }

  /** This version is the one active version of its type. */
  ghost predicate Published(defs: Definitions, key: Key) {
    && key in defs && defs[key].state.Active?
    && forall k :: k in defs && k.0 == key.0 && defs[k].state.Active? ==> k == key
  }

  lemma PublishedIsRead(defs: Definitions, key: Key)
    requires Published(defs, key)
    ensures ReadAs(defs, key)
  {
    forall s | ReadsFrom(s, defs) ensures key.0 in s.active && s.active[key.0] == key.1 {
      assert defs[key].state.Active?;
      assert (key.0, s.active[key.0]) in defs;
    }
  }

  /** Only versions of this type differ: they keep their graphs, and those that were
      active are validated now. */
  ghost predicate OthersDemoted(before: Definitions, after: Definitions, key: Key) {
    && after.Keys == before.Keys + {key}
    && forall k :: k in before && k != key ==>
         after[k] == if k.0 == key.0 && before[k].state.Active? then before[k].(state := Validated) else before[k]
  }

  /** Only this version differs. */
  ghost predicate OthersKept(before: Definitions, after: Definitions, key: Key) {
    after.Keys == before.Keys + {key} && forall k :: k in before && k != key ==> after[k] == before[k]
  }

  lemma ActivatedPublishes(c: Checks, defs: Definitions, key: Key, distributed: bool)
    requires CanActivate(c, defs, key, distributed)
    ensures var after := Activated(c, defs, key, distributed);
            && Published(after, key) && OthersDemoted(defs, after, key)
            && after[key].graph == defs[key].graph && !after[key].hasErrors
  {
  }

  /** An activation publishes a known version that validation accepts and whose skills,
      for a stage graph, were distributed, and demotes the others; it changes nothing
      else, and nothing at all otherwise. */
  lemma ActivatePublishesIff(c: Checks, defs: Definitions, key: Key, distributed: bool)
    ensures var after := Apply(c, defs, Activate(key, distributed));
            if key in defs && Accepts(c, key.0, defs[key].graph) && (IsStageGraph(defs[key].graph) ==> distributed)
            then
              && Published(after, key) && ReadAs(after, key) && OthersDemoted(defs, after, key)
              && after[key].graph == defs[key].graph && !after[key].hasErrors
            else after == defs
  {
    var after := Apply(c, defs, Activate(key, distributed));
    if CanActivate(c, defs, key, distributed) {
      ActivatedPublishes(c, defs, key, distributed);
      PublishedIsRead(after, key);
    }
  }

  lemma UpsertedActive(c: Checks, defs: Definitions, key: Key, graph: Fields, distributed: bool)
    requires var g := NormalizeGraph(graph);
             TypeKeyOk(key.0) && Accepts(c, key.0, g) && MayDistribute(g, distributed)
    ensures var after := Upserted(c, defs, key, Active, graph, distributed);
            && Published(after, key) && OthersDemoted(defs, after, key)
            && after[key].graph == NormalizeGraph(graph) && !after[key].hasErrors
  {
  }

  /** Storing a version as active publishes it when validation accepts it, and stores
      nothing otherwise; stored in another state, it is normalised, marked with what
      validation found, and leaves every other version alone. */
  lemma UpsertPublishesIff(c: Checks, defs: Definitions, key: Key, state: Lifecycle, graph: Fields, distributed: bool)
    requires TypeKeyOk(key.0)
    ensures var after, g := Apply(c, defs, Upsert(key, state, graph, distributed)), NormalizeGraph(graph);
            if !state.Active? then
              && OthersKept(defs, after, key) && after[key].state == state && after[key].graph == g
              && (after[key].hasErrors <==> !Accepts(c, key.0, g))
            else if Accepts(c, key.0, g) && (IsStageGraph(g) ==> distributed) then
              && Published(after, key) && ReadAs(after, key) && OthersDemoted(defs, after, key)
              && after[key].graph == g && !after[key].hasErrors
            else after == defs
  {
    var after, g := Apply(c, defs, Upsert(key, state, graph, distributed)), NormalizeGraph(graph);
    if state.Active? && Accepts(c, key.0, g) && MayDistribute(g, distributed) {
      UpsertedActive(c, defs, key, graph, distributed);
      PublishedIsRead(after, key);
    }
  }

  /** The decisions a stage keeps: its own if they are an object, else legacy ones. */
  function KeptDecisions(payload: Fields): Json {
    var decisions, legacy := Get(payload, "decisions"), Get(payload, "transitions");
    if decisions.Obj? || (decisions != Null && !legacy.Obj?) then decisions else legacy
  }

  /** A stored stage has its decisions under one name, and is otherwise as it was. */
  predicate Modern(before: (string, Json), after: (string, Json)) {
    && after.0 == before.0 && (before.1.Obj? <==> after.1.Obj?) && (!before.1.Obj? ==> after.1 == before.1)
    && (before.1.Obj? ==>
          && Get(after.1.fields, "transitions") == Null
          && Get(after.1.fields, "decisions") == KeptDecisions(before.1.fields)
          && Get(after.1.fields, "target") == Get(before.1.fields, "target")
          && Get(after.1.fields, "required_skill") == Get(before.1.fields, "required_skill")
          && Get(after.1.fields, "is_terminal") == Get(before.1.fields, "is_terminal"))
  }

  lemma ModernStage(name: string, payload: Fields)
    ensures Modern((name, Obj(payload)), (name, Obj(NormalizeStage(payload))))
  {
    NormalizeStageGets(payload);
    assert |"decisions"| == 9 && |"transitions"| == 11 && |"target"| == 6 && |"required_skill"| == 14;
  }

  lemma {:induction false} NormalizedIsModern(stages: Fields, i: nat)
    requires i < |stages|
    ensures Modern(stages[i], NormalizeStages(stages)[i])
  {
    if i > 0 {
      NormalizedIsModern(stages[1..], i - 1);
    } else if stages[0].1.Obj? {
      ModernStage(stages[0].0, stages[0].1.fields);
    }
  }

  /** What is stored of a stage graph has every stage under its name, modernised. */
  lemma StoredIsModern(c: Checks, defs: Definitions, key: Key, graph: Fields, distributed: bool, i: nat)
    requires TypeKeyOk(key.0) && IsStageGraph(graph) && i < |Get(graph, "stages").fields|
    ensures var stored := Apply(c, defs, Upsert(key, Draft, graph, distributed));
            && key in stored && IsStageGraph(stored[key].graph)
            && var stages := Get(stored[key].graph, "stages").fields;
               |stages| == |Get(graph, "stages").fields| && Modern(Get(graph, "stages").fields[i], stages[i])
  {
    var stages := Get(graph, "stages").fields;
    GetPut(graph, "stages", Obj(NormalizeStages(stages)), "stages");
    NormalizedIsModern(stages, i);
  }

  /** Validation turns a version into a validated one or back into a draft; either way
      it is no longer active, and no other version changes. */
  lemma CheckedIff(c: Checks, defs: Definitions, key: Key)
    requires key in defs
    ensures var after, valid := Apply(c, defs, Check(key)), Accepts(c, key.0, defs[key].graph);
            && OthersKept(defs, after, key) && after[key].graph == defs[key].graph
            && after[key].state == (if valid then Validated else Draft) && (after[key].hasErrors <==> !valid)
  {
  }

  lemma {:induction false} Unread(s: Router.Store, typeKey: string)
    requires typeKey !in s.active
    ensures forall fm, sender :: Router.FormTypeOf(fm) == Some(typeKey) ==>
              Router.RouteFile(s, fm, sender) == Err(Router.NoActiveType)
  {
  }

  lemma NoneActive(defs: Definitions, typeKey: string, s: Router.Store)
    requires ReadsFrom(s, defs) && forall k :: k in defs && k.0 == typeKey ==> !defs[k].state.Active?
    ensures typeKey !in s.active
  {
  }

  lemma Deprecates(defs: Definitions, key: Key)
    requires Published(defs, key)
    ensures var after := DeprecatedDefs(defs, key);
            && OthersKept(defs, after, key) && after[key].state == Deprecated && after[key].graph == defs[key].graph
            && forall k :: k in after && k.0 == key.0 ==> !after[k].state.Active?
  {
  }

  /** A deprecated version is not active, and if it was the published one the router
      refuses the type's files. */
  lemma {:induction false} DeprecatedIsUnread(c: Checks, defs: Definitions, key: Key, s: Router.Store)
    requires Published(defs, key) && ReadsFrom(s, Apply(c, defs, Deprecate(key)))
    ensures var after := Apply(c, defs, Deprecate(key));
            && OthersKept(defs, after, key) && after[key].state == Deprecated && after[key].graph == defs[key].graph
            && key.0 !in s.active
            && forall fm, sender :: Router.FormTypeOf(fm) == Some(key.0) ==>
                 Router.RouteFile(s, fm, sender) == Err(Router.NoActiveType)
  {
    Deprecates(defs, key);
    NoneActive(Apply(c, defs, Deprecate(key)), key.0, s);
    Unread(s, key.0);
  }

  /** A deleted version is gone, nothing else is, and if it was the published one the
      router refuses the type's files. */
  lemma {:induction false} DeletedIsGone(c: Checks, defs: Definitions, key: Key, s: Router.Store)
    requires ReadsFrom(s, Apply(c, defs, Delete(key)))
    ensures var after := Apply(c, defs, Delete(key));
            && key !in after && (forall k :: k in defs && k != key ==> k in after && after[k] == defs[k])
            && (Published(defs, key) ==>
                  key.0 !in s.active
                  && forall fm, sender :: Router.FormTypeOf(fm) == Some(key.0) ==>
                       Router.RouteFile(s, fm, sender) == Err(Router.NoActiveType))
  {
    if Published(defs, key) {
      NoneActive(Apply(c, defs, Delete(key)), key.0, s);
      Unread(s, key.0);
    }
  }

  /** A type's key is a name that can serve as a directory. */
  predicate PlainTypeKey(typeKey: string) {
    && typeKey != "" && 'a' <= typeKey[0] <= 'z'
    && forall i :: 0 <= i < |typeKey| ==> typeKey[i] in "abcdefghijklmnopqrstuvwxyz0123456789_"
  }

  ghost predicate PlainKeys(defs: Definitions) {
    forall k :: k in defs ==> PlainTypeKey(k.0)
  }

  lemma CharsPlain(typeKey: string)
    requires TypeKeyOk(typeKey)
    ensures PlainTypeKey(typeKey)
  {
    var plain := "abcdefghijklmnopqrstuvwxyz0123456789_";
    forall i | 0 <= i < |typeKey| ensures typeKey[i] in plain {
      var c := typeKey[i];
      var at := if 'a' <= c <= 'z' then c as int - 97 else if '0' <= c <= '9' then c as int - 48 + 26 else 36;
      assert plain[at] == c;
    }
  }

  lemma UpsertKeepsPlain(c: Checks, defs: Definitions, key: Key, state: Lifecycle, graph: Fields, distributed: bool)
    requires PlainKeys(defs)
    ensures PlainKeys(Upserted(c, defs, key, state, graph, distributed))
  {
    if TypeKeyOk(key.0) { CharsPlain(key.0); }
  }

  lemma {:induction false} SyncKeepsPlain(c: Checks, s: Synced, packages: seq<Package>, activate: bool)
    requires PlainKeys(s.defs)
    ensures PlainKeys(SyncAll(c, s, packages, activate).defs)
    decreases |packages|
  {
    if packages != [] {
      var p := packages[0];
      if p.Package? {
        SyncOneCases(c, s, p, activate);
        UpsertKeepsPlain(c, s.defs, (p.typeKey, p.version), Draft, Stamped(p), p.distributed);
      }
      SyncKeepsPlain(c, SyncOne(c, s, p, activate), packages[1..], activate);
    }
  }

  /** After any run of actions, every stored form type has a plain key. */
  lemma {:induction false} StoredKeysArePlain(defs: Definitions, steps: seq<Step>)
    requires PlainKeys(defs)
    ensures PlainKeys(Run(defs, steps))
    decreases |steps|
  {
    if steps != [] {
      var c, a := steps[0].checks, steps[0].action;
      if a.Upsert? {
        UpsertKeepsPlain(c, defs, a.key, a.state, a.graph, a.distributed);
      } else if a.Sync? {
        SyncKeepsPlain(c, Synced(defs, {}), a.packages, a.activate);
      } else if a.Builtin? {
        assert TypeKeyOk("message");
        CharsPlain("message");
      }
      StoredKeysArePlain(Apply(c, defs, a), steps[1..]);
    }
  }

  /** The built-in message type is published whenever no version of it existed. */
  lemma BuiltinIsPublished(c: Checks, defs: Definitions, version: string, graph: Fields)
    ensures var after, key := Apply(c, defs, Builtin(version, graph)), ("message", version);
            if exists k :: k in defs && k.0 == "message" then after == defs
            else
              && Published(after, key) && ReadAs(after, key) && OthersKept(defs, after, key)
              && after[key].graph == graph
  {
    var after, key := Apply(c, defs, Builtin(version, graph)), ("message", version);
    if !exists k :: k in defs && k.0 == "message" {
      PublishedIsRead(after, key);
    }
  }

  // ---------------------------------------------------------------------
  // A sync
  // ---------------------------------------------------------------------

  /** The sync counts the package as synced. */
  ghost predicate CountedAsSynced(c: Checks, s: Synced, p: Package, activate: bool) {
    p.Package? && SyncOne(c, s.(keys := {}), p, activate).keys == {(p.typeKey, p.version)}
  }

  /** The definition a sync stores says whose it is. */
  predicate NamesItself(graph: Fields, p: Package)
    requires p.Package?
  {
    Get(graph, "form_type") == Str(p.typeKey) && Get(graph, "version") == Str(p.version)
  }

  lemma StampedNamesItself(p: Package)
    requires p.Package?
    ensures NamesItself(Stamped(p), p) && NamesItself(NormalizeGraph(Stamped(p)), p)
  {
    var named := Put(p.graph, "form_type", Str(p.typeKey));
    var both := Put(named, "version", Str(p.version));
    assert |"form_type"| == 9 && |"version"| == 7 && |"stages"| == 6;
    GetPut(p.graph, "form_type", Str(p.typeKey), "form_type");
    GetPut(named, "version", Str(p.version), "form_type");
    GetPut(named, "version", Str(p.version), "version");
    NormalizeKeeps(both, "form_type");
    NormalizeKeeps(both, "version");
    NormalizeKeeps(Stamped(p), "form_type");
    NormalizeKeeps(Stamped(p), "version");
  }

  lemma NormalizeKeeps(graph: Fields, key: string)
    requires key != "stages"
    ensures Get(NormalizeGraph(graph), key) == Get(graph, key)
  {
    if IsStageGraph(graph) {
      GetPut(graph, "stages", Obj(NormalizeStages(Get(graph, "stages").fields)), key);
    }
  }

  /** The graph of a package's version once it is stored. */
  function StoredGraph(s: Synced, p: Package): Fields
    requires p.Package?
  {
    if (p.typeKey, p.version) in s.defs && !p.differs then s.defs[(p.typeKey, p.version)].graph
    else NormalizeGraph(Stamped(p))
  }

  /** A package counts as synced exactly when it is named and accepted, was saved if
      it is new or differs, and, in an activating sync, what is stored is accepted, its
      skills were distributed and the activation was saved. One that is not accepted
      changes nothing. */
  lemma CountedIff(c: Checks, s: Synced, p: Package, activate: bool)
    requires p.Package?
    ensures var key := (p.typeKey, p.version);
            var changed, g := key !in s.defs || p.differs, StoredGraph(s, p);
            CountedAsSynced(c, s, p, activate) <==>
              && p.typeKey != "" && p.version != "" && Accepts(c, p.typeKey, Stamped(p))
              && (changed ==> TypeKeyOk(p.typeKey) && p.upsertSaved && Accepts(c, p.typeKey, g))
              && (activate ==> Accepts(c, p.typeKey, g) && (IsStageGraph(g) ==> p.distributed) && p.activateSaved)
    ensures !Accepts(c, p.typeKey, Stamped(p)) ==> SyncOne(c, s, p, activate) == s
  {
  }

  /** A sync that does not activate stores what is new or differs as a draft. */
  lemma CountedIsDraft(c: Checks, s: Synced, p: Package)
    requires CountedAsSynced(c, s, p, false)
    ensures var after, key := SyncOne(c, s, p, false), (p.typeKey, p.version);
            && after.keys == s.keys + {key} && key in after.defs && after.defs[key].graph == StoredGraph(s, p)
            && OthersKept(s.defs, after.defs, key)
            && after.defs[key].state == if key !in s.defs || p.differs then Draft else s.defs[key].state
  {
  }

  /** A package counted by an activating sync is published; other types are untouched. */
  lemma CountedIsPublished(c: Checks, s: Synced, p: Package)
    requires CountedAsSynced(c, s, p, true)
    ensures var after, key := SyncOne(c, s, p, true), (p.typeKey, p.version);
            && Published(after.defs, key) && key in after.keys
            && (key !in s.defs || p.differs ==> NamesItself(after.defs[key].graph, p))
  {
    var key := (p.typeKey, p.version);
    StampedNamesItself(p);
    var stored := if key !in s.defs || p.differs then Upserted(c, s.defs, key, Draft, Stamped(p), p.distributed)
                  else s.defs;
    assert CanActivate(c, stored, key, p.distributed);
    ActivatedPublishes(c, stored, key, p.distributed);
  }

  /** Packages that do not concern a type. */
  ghost predicate Elsewhere(packages: seq<Package>, typeKey: string) {
    forall i :: 0 <= i < |packages| ==> packages[i].Unreadable? || packages[i].typeKey != typeKey
  }

  ghost predicate SameVersions(before: Definitions, after: Definitions, typeKey: string) {
    forall k: Key :: k.0 == typeKey ==> (k in before <==> k in after) && (k in before ==> after[k] == before[k])
  }

  lemma OneElsewhere(c: Checks, s: Synced, p: Package, activate: bool, typeKey: string)
    requires p.Unreadable? || p.typeKey != typeKey
    ensures var after := SyncOne(c, s, p, activate); SameVersions(s.defs, after.defs, typeKey) && s.keys <= after.keys
  {
    if p.Package? {
      SyncOneCases(c, s, p, activate);
    }
  }

  lemma {:induction false} AllElsewhere(c: Checks, s: Synced, packages: seq<Package>, activate: bool, typeKey: string)
    requires Elsewhere(packages, typeKey)
    ensures var after := SyncAll(c, s, packages, activate);
            SameVersions(s.defs, after.defs, typeKey) && s.keys <= after.keys
    decreases |packages|
  {
    if packages != [] {
      assert packages[0].Unreadable? || packages[0].typeKey != typeKey;
      assert forall i :: 0 <= i < |packages[1..]| ==> packages[1..][i] == packages[i + 1];
      OneElsewhere(c, s, packages[0], activate, typeKey);
      AllElsewhere(c, SyncOne(c, s, packages[0], activate), packages[1..], activate, typeKey);
    }
  }

  lemma {:induction false} SyncSplit(c: Checks, s: Synced, packages: seq<Package>, activate: bool, i: nat)
    requires i < |packages|
    ensures var before := SyncAll(c, s, packages[..i], activate);
            SyncAll(c, s, packages, activate)
            == SyncAll(c, SyncOne(c, before, packages[i], activate), packages[i + 1..], activate)
    decreases |packages|
  {
    if i > 0 {
      var next := SyncOne(c, s, packages[0], activate);
      SyncSplit(c, next, packages[1..], activate, i - 1);
      assert packages[1..][..i - 1] == packages[..i][1..] && packages[1..][i..] == packages[i + 1..];
    }
  }

  /** A package that an activating sync counts as synced is the one the router steps
      files on afterwards, pruned or not, unless a later package has its type. */
  lemma {:induction false} SyncPublishes(c: Checks, defs: Definitions, packages: seq<Package>, prune: bool,
                                         referenced: set<Key>, i: nat)
    requires i < |packages|
    requires CountedAsSynced(c, SyncAll(c, Synced(defs, {}), packages[..i], true), packages[i], true)
    requires Elsewhere(packages[i + 1..], packages[i].typeKey)
    ensures var after, key := SyncedDefs(c, defs, packages, true, prune, referenced),
                              (packages[i].typeKey, packages[i].version);
            Published(after, key) && ReadAs(after, key)
  {
    var before := SyncAll(c, Synced(defs, {}), packages[..i], true);
    var one := SyncOne(c, before, packages[i], true);
    var key := (packages[i].typeKey, packages[i].version);
    SyncSplit(c, Synced(defs, {}), packages, true, i);
    CountedIsPublished(c, before, packages[i]);
    AllElsewhere(c, one, packages[i + 1..], true, key.0);
    var all := SyncAll(c, Synced(defs, {}), packages, true);
    StaysPublished(one.defs, all, key, SyncedDefs(c, defs, packages, true, prune, referenced), prune, referenced);
  }

  lemma StaysPublished(one: Definitions, all: Synced, key: Key, after: Definitions, prune: bool, referenced: set<Key>)
    requires Published(one, key) && SameVersions(one, all.defs, key.0) && key in all.keys
    requires after == if prune then Pruned(all.defs, all.keys, referenced) else all.defs
    ensures Published(after, key) && ReadAs(after, key)
  {
    assert key in all.defs;
    PublishedIsRead(after, key);
  }
}
