/** Moving a form's file through the router: copies, the source's removal, the
    rollback after a refused transition and the dead letter, with an I/O error
    possible at every step. */
module RoutingFiles {
  import opened Prelude
  import opened Text
  import Frontmatter

  datatype Path = Path(dir: string, name: string)

  type Files = map<Path, string>

  // ---------------------------------------------------------------------
  // Unique paths
  // ---------------------------------------------------------------------

  /** The position of the last dot, when there is one. */
  function LastDot(name: string): (r: Option<nat>)
    ensures r.Some? ==> r.value < |name|
  {
    if name == "" then None else if name[|name| - 1] == '.' then Some(|name| - 1) else LastDot(name[..|name| - 1])
  }

  /** Where the suffix starts; a leading or a final dot starts none. */
  function StemLength(name: string): (n: nat)
    ensures n <= |name|
  {
    var dot := LastDot(name);
    if dot.Some? && 0 < dot.value < |name| - 1 then dot.value else |name|
  }

  function Numbered(path: Path, counter: nat): Path {
    var n := StemLength(path.name);
    Path(path.dir, path.name[..n] + "-" + Decimal(counter) + path.name[n..])
  }

  lemma NumberedInjective(path: Path, i: nat, j: nat)
    requires Numbered(path, i) == Numbered(path, j)
    ensures i == j
  {
    var n := StemLength(path.name);
    var a, b, suffix := path.name[..n] + "-" + Decimal(i), path.name[..n] + "-" + Decimal(j), path.name[n..];
    assert |a + suffix| == |b + suffix|;
    assert a == (a + suffix)[..|a|] && b == (b + suffix)[..|a|];
    assert Decimal(i) == a[n + 1..] && Decimal(j) == b[n + 1..];
    DecimalInjective(i, j);
  }

  /** Only so many numbered names can be taken. */
  lemma TakenFit(files: Files, path: Path, counter: nat)
    requires counter >= 1 && forall j :: 1 <= j < counter ==> Numbered(path, j) in files
    ensures counter - 1 <= |files|
  {
    var taken := seq(counter - 1, k requires 0 <= k < counter - 1 => Numbered(path, k + 1));
    forall i, j | 0 <= i < j < |taken| ensures taken[i] != taken[j] {
      if taken[i] == taken[j] { NumberedInjective(path, i + 1, j + 1); }
    }
    NoDupCount(taken);
    SubsetCount(Elements(taken), files.Keys);
  }

  function FirstFree(files: Files, path: Path, counter: nat): (free: Path)
    requires counter >= 1 && forall j :: 1 <= j < counter ==> Numbered(path, j) in files
    ensures free !in files && free.dir == path.dir
    decreases |files| + 1 - counter
  {
    if Numbered(path, counter) !in files then Numbered(path, counter)
    else
      TakenFit(files, path, counter + 1);
      FirstFree(files, path, counter + 1)
  }

  function UniquePath(files: Files, path: Path): (free: Path)
    ensures free !in files && free.dir == path.dir
  {
    if path !in files then path else FirstFree(files, path, 1)
  }

  /** The search tries at most one name more than there are files. */
  method ResolveUniquePath(files: Files, path: Path) returns (free: Path)
    ensures free == UniquePath(files, path)
    ensures free == path || exists k :: 1 <= k <= |files| + 1 && free == Numbered(path, k)
  {
    if path !in files {
      return path;
    }
    var counter := 1;
    while Numbered(path, counter) in files
      invariant counter >= 1 && forall j :: 1 <= j < counter ==> Numbered(path, j) in files
      invariant FirstFree(files, path, counter) == FirstFree(files, path, 1)
      decreases |files| + 1 - counter
    {
      TakenFit(files, path, counter + 1);
      counter := counter + 1;
    }
    TakenFit(files, path, counter);
    free := Numbered(path, counter);
  }

  // ---------------------------------------------------------------------
  // Steps that can fail
  // ---------------------------------------------------------------------

  /** How a write or move goes wrong: it may leave something at its target. */
  datatype Fault = NoFault | Fault(left: Option<string>)

  datatype Transition = Committed | Refused | Crashed

  /** What the environment does at every step of one routing attempt. */
  datatype Faults = Faults(
    mkdirArchive: bool, mkdirInbox: bool, delivery: Fault, archive: Fault, mkdirBackup: bool, backup: Fault,
    unlinkSource: bool, transition: Transition, undoDelivery: bool, undoBackup: bool, mkdirUndo: bool,
    undoArchive: Fault, mkdirDead: bool, dead: Fault)

  datatype Tried = Tried(files: Files, ok: bool)

  function Leave(files: Files, path: Path, left: Option<string>): Files {
    if left.Some? then files[path := left.value] else files
  }

  function Write(files: Files, path: Path, text: string, fault: Fault): Tried {
    if fault.NoFault? then Tried(files[path := text], true) else Tried(Leave(files, path, fault.left), false)
  }

  function Unlink(files: Files, path: Path, fails: bool): Tried {
    if fails || path !in files then Tried(files, false) else Tried(files - {path}, true)
  }

  function Move(files: Files, from: Path, to: Path, fault: Fault): Tried
    requires from in files
  {
    if fault.NoFault? then Tried((files - {from})[to := files[from]], true)
    else Tried(Leave(files, to, fault.left), false)
  }

  // ---------------------------------------------------------------------
  // One routing attempt
  // ---------------------------------------------------------------------

  /** A file that passed every guard: where it is, where its copies go, and the
      text they carry. */
  datatype Plan = Plan(
    source: Path, archiveDir: string, inboxDir: Option<string>, backup: Path, deadDir: Option<string>, text: string)

  function ArchivePath(files: Files, plan: Plan): Path {
    UniquePath(files, Path(plan.archiveDir, plan.source.name))
  }

  function DeliveryPath(files: Files, plan: Plan): Option<Path> {
    if plan.inboxDir.Some? then Some(UniquePath(files, Path(plan.inboxDir.value, plan.source.name))) else None
  }

  function BackupPath(files: Files, plan: Plan): Path {
    UniquePath(files, plan.backup)
  }

  /** Delivery, archive and backup are written in turn, then the source goes. */
  function WriteCopies(files: Files, source: Path, delivery: Option<Path>, archive: Path, backup: Path, text: string,
                       f: Faults): Tried
  {
    var delivered := if delivery.Some? then Write(files, delivery.value, text, f.delivery) else Tried(files, true);
    if !delivered.ok then delivered
    else
      var archived := Write(delivered.files, archive, text, f.archive);
      if !archived.ok then archived
      else if f.mkdirBackup then Tried(archived.files, false)
      else
        var backed := Write(archived.files, backup, text, f.backup);
        if !backed.ok then backed else Unlink(backed.files, source, f.unlinkSource)
  }

  /** Takes the copies back and returns the archived file to the queue, each step
      regardless of whether the others work. */
  function Rollback(files: Files, source: Path, delivery: Option<Path>, archive: Path, backup: Path, f: Faults): Files {
    var undelivered := if delivery.Some? && delivery.value in files
                       then Unlink(files, delivery.value, f.undoDelivery).files else files;
    var unbacked := if backup in undelivered then Unlink(undelivered, backup, f.undoBackup).files else undelivered;
    if archive in unbacked && source !in unbacked && !f.mkdirUndo
    then Move(unbacked, archive, source, f.undoArchive).files
    else unbacked
  }

  /** An undelivered source goes to the dead letters, if it is still there. */
  function Undeliver(files: Files, source: Path, deadDir: Option<string>, f: Faults): Files {
    if source in files && deadDir.Some? && !f.mkdirDead
    then Move(files, source, UniquePath(files, Path(deadDir.value, source.name)), f.dead).files
    else files
  }

  datatype Status = Raised | Undelivered | Routed

  datatype Outcome = Outcome(files: Files, status: Status)

  function Route(files: Files, plan: Plan, f: Faults): Outcome {
    if f.mkdirArchive || (plan.inboxDir.Some? && f.mkdirInbox) then Outcome(files, Raised)
    else
      var archive, delivery, backup := ArchivePath(files, plan), DeliveryPath(files, plan), BackupPath(files, plan);
      var copied := WriteCopies(files, plan.source, delivery, archive, backup, plan.text, f);
      if !copied.ok then Outcome(Undeliver(copied.files, plan.source, plan.deadDir, f), Undelivered)
      else
        match f.transition
        case Committed => Outcome(copied.files, Routed)
        case Crashed => Outcome(copied.files, Raised)
        case Refused =>
          var restored := Rollback(copied.files, plan.source, delivery, archive, backup, f);
          Outcome(Undeliver(restored, plan.source, plan.deadDir, f), Undelivered)
  }

  class RouterFiles {
    var files: Files

    constructor (files: Files)
      ensures this.files == files
    {
      this.files := files;
    }

    method WriteText(path: Path, text: string, fault: Fault) returns (ok: bool)
      modifies this
      ensures Tried(files, ok) == Write(old(files), path, text, fault)
    {
      match fault
      case NoFault =>
        files := files[path := text];
        ok := true;
      case Fault(left) =>
        if left.Some? {
          files := files[path := left.value];
        }
        ok := false;
    }

    method UnlinkFile(path: Path, fails: bool) returns (ok: bool)
      modifies this
      ensures Tried(files, ok) == Unlink(old(files), path, fails)
    {
      ok := !fails && path in files;
      if ok {
        files := files - {path};
      }
    }

    method MoveFile(from: Path, to: Path, fault: Fault) returns (ok: bool)
      requires from in files
      modifies this
      ensures Tried(files, ok) == Move(old(files), from, to, fault)
    {
      var text := files[from];
      match fault
      case NoFault =>
        files := files - {from};
        files := files[to := text];
        ok := true;
      case Fault(left) =>
        if left.Some? {
          files := files[to := left.value];
        }
        ok := false;
    }

    method Copy(source: Path, delivery: Option<Path>, archive: Path, backup: Path, text: string, f: Faults)
      returns (ok: bool)
      modifies this
      ensures Tried(files, ok) == WriteCopies(old(files), source, delivery, archive, backup, text, f)
    {
      ok := true;
      if delivery.Some? {
        ok := WriteText(delivery.value, text, f.delivery);
        if !ok { return; }
      }
      ok := WriteText(archive, text, f.archive);
      if !ok { return; }
      if f.mkdirBackup { return false; }
      ok := WriteText(backup, text, f.backup);
      if !ok { return; }
      ok := UnlinkFile(source, f.unlinkSource);
    }

    method RollbackRoutingFiles(source: Path, delivery: Option<Path>, archive: Path, backup: Path, f: Faults)
      modifies this
      ensures files == Rollback(old(files), source, delivery, archive, backup, f)
    {
      if delivery.Some? && delivery.value in files {
        var _ := UnlinkFile(delivery.value, f.undoDelivery);
      }
      if backup in files {
        var _ := UnlinkFile(backup, f.undoBackup);
      }
      if archive in files && source !in files && !f.mkdirUndo {
        var _ := MoveFile(archive, source, f.undoArchive);
      }
    }

    method UndeliverSource(source: Path, deadDir: Option<string>, f: Faults)
      modifies this
      ensures files == Undeliver(old(files), source, deadDir, f)
    {
      if source in files && deadDir.Some? && !f.mkdirDead {
        var dead := ResolveUniquePath(files, Path(deadDir.value, source.name));
        var _ := MoveFile(source, dead, f.dead);
      }
    }

    method RouteSource(plan: Plan, f: Faults) returns (status: Status)
      modifies this
      ensures Outcome(files, status) == Route(old(files), plan, f)
    {
      if f.mkdirArchive { return Raised; }
      var archive := ResolveUniquePath(files, Path(plan.archiveDir, plan.source.name));
      var delivery: Option<Path> := None;
      if plan.inboxDir.Some? {
        if f.mkdirInbox { return Raised; }
        var inbox := ResolveUniquePath(files, Path(plan.inboxDir.value, plan.source.name));
        delivery := Some(inbox);
      }
      var backup := ResolveUniquePath(files, plan.backup);
      var ok := Copy(plan.source, delivery, archive, backup, plan.text, f);
      if !ok {
        UndeliverSource(plan.source, plan.deadDir, f);
        return Undelivered;
      }
      match f.transition
      case Committed => status := Routed;
      case Crashed => status := Raised;
      case Refused =>
        RollbackRoutingFiles(plan.source, delivery, archive, backup, f);
        UndeliverSource(plan.source, plan.deadDir, f);
        status := Undelivered;
    }
  }

  // ---------------------------------------------------------------------
  // Nothing is lost, nothing is overwritten
  // ---------------------------------------------------------------------

  /** Files other than the source are as before. */
  ghost predicate Kept(before: Files, after: Files, source: Path) {
    forall p :: p in before && p != source ==> p in after && after[p] == before[p]
  }

  /** A copy of the form, as it was queued or as it is routed, sits in the queue,
      or newly in the archive or among the dead letters. */
  predicate CopyAt(before: Files, after: Files, plan: Plan, p: Path)
    requires plan.source in before
  {
    && p in after && (after[p] == before[plan.source] || after[p] == plan.text)
    && (p == plan.source || (p !in before && (p.dir == plan.archiveDir || Some(p.dir) == plan.deadDir)))
  }

  ghost predicate Survives(before: Files, after: Files, plan: Plan)
    requires plan.source in before
  {
    exists p :: CopyAt(before, after, plan, p)
  }

  lemma UndeliverKeeps(before: Files, files: Files, source: Path, deadDir: Option<string>, f: Faults)
    requires Kept(before, files, source) && source in before
    ensures Kept(before, Undeliver(files, source, deadDir, f), source)
  {
  }

  /** Whatever goes wrong, no file that was there before is overwritten or removed. */
  lemma NothingOverwritten(files: Files, plan: Plan, f: Faults)
    requires plan.source in files
    ensures Kept(files, Route(files, plan, f).files, plan.source)
  {
    var archive, delivery, backup := ArchivePath(files, plan), DeliveryPath(files, plan), BackupPath(files, plan);
    var copied := WriteCopies(files, plan.source, delivery, archive, backup, plan.text, f);
    assert Kept(files, copied.files, plan.source);
    UndeliverKeeps(files, copied.files, plan.source, plan.deadDir, f);
    var restored := Rollback(copied.files, plan.source, delivery, archive, backup, f);
    assert Kept(files, restored, plan.source);
    UndeliverKeeps(files, restored, plan.source, plan.deadDir, f);
  }

  /** The dead-letter step keeps the copy it was given, wherever it was. */
  lemma UndeliverKeepsCopy(before: Files, files: Files, plan: Plan, f: Faults, p: Path)
    requires plan.source in before && Kept(before, files, plan.source) && CopyAt(before, files, plan, p)
    ensures Survives(before, Undeliver(files, plan.source, plan.deadDir, f), plan)
  {
    var after := Undeliver(files, plan.source, plan.deadDir, f);
    if p == plan.source && p in files && plan.deadDir.Some? && !f.mkdirDead {
      var dead := UniquePath(files, Path(plan.deadDir.value, plan.source.name));
      assert dead !in before || dead == plan.source;
      assert CopyAt(before, after, plan, if f.dead.NoFault? then dead else plan.source);
    } else {
      assert CopyAt(before, after, plan, p);
    }
  }

  predicate ArchiveApart(files: Files, plan: Plan) {
    Some(ArchivePath(files, plan)) != DeliveryPath(files, plan) && ArchivePath(files, plan) != BackupPath(files, plan)
  }

  lemma FailedCopySurvives(files: Files, plan: Plan, delivery: Option<Path>, archive: Path, backup: Path, f: Faults)
    requires plan.source in files && archive !in files && backup !in files
    requires delivery.Some? ==> delivery.value !in files
    requires !WriteCopies(files, plan.source, delivery, archive, backup, plan.text, f).ok
    ensures var copied := WriteCopies(files, plan.source, delivery, archive, backup, plan.text, f).files;
            Kept(files, copied, plan.source) && CopyAt(files, copied, plan, plan.source)
  {
  }

  lemma CopiedFiles(files: Files, source: Path, delivery: Option<Path>, archive: Path, backup: Path, text: string,
                    f: Faults)
    requires source in files && archive !in files && backup !in files
    requires delivery.Some? ==> delivery.value !in files
    requires WriteCopies(files, source, delivery, archive, backup, text, f).ok
    ensures var copied := WriteCopies(files, source, delivery, archive, backup, text, f).files;
            && archive in copied && copied[archive] == text && source !in copied
            && Kept(files, copied, source)
  {
  }

  lemma RollbackCopies(before: Files, copied: Files, source: Path, delivery: Option<Path>, archive: Path, backup: Path,
                       f: Faults)
    requires source in before && archive !in before && backup !in before && Kept(before, copied, source)
    requires delivery.Some? ==> delivery.value !in before
    requires Some(archive) != delivery && archive != backup && archive in copied && source !in copied
    ensures var restored := Rollback(copied, source, delivery, archive, backup, f);
            && Kept(before, restored, source)
            && ((archive in restored && restored[archive] == copied[archive])
                || (source in restored && restored[source] == copied[archive]))
  {
  }

  lemma RefusedSurvives(files: Files, plan: Plan, delivery: Option<Path>, archive: Path, backup: Path, f: Faults)
    returns (p: Path)
    requires plan.source in files && archive !in files && backup !in files && archive.dir == plan.archiveDir
    requires delivery.Some? ==> delivery.value !in files
    requires Some(archive) != delivery && archive != backup
    requires WriteCopies(files, plan.source, delivery, archive, backup, plan.text, f).ok
    ensures var copied := WriteCopies(files, plan.source, delivery, archive, backup, plan.text, f).files;
            var restored := Rollback(copied, plan.source, delivery, archive, backup, f);
            && CopyAt(files, copied, plan, archive)
            && Kept(files, restored, plan.source) && CopyAt(files, restored, plan, p)
  {
    var copied := WriteCopies(files, plan.source, delivery, archive, backup, plan.text, f).files;
    CopiedFiles(files, plan.source, delivery, archive, backup, plan.text, f);
    RollbackCopies(files, copied, plan.source, delivery, archive, backup, f);
    var restored := Rollback(copied, plan.source, delivery, archive, backup, f);
    p := if archive in restored && restored[archive] == plan.text then archive else plan.source;
  }

  lemma SurvivesApart(files: Files, plan: Plan, f: Faults)
    requires plan.source in files && ArchiveApart(files, plan)
    ensures Survives(files, Route(files, plan, f).files, plan)
  {
    var archive, delivery, backup := ArchivePath(files, plan), DeliveryPath(files, plan), BackupPath(files, plan);
    var copied := WriteCopies(files, plan.source, delivery, archive, backup, plan.text, f);
    assert CopyAt(files, files, plan, plan.source);
    if !copied.ok {
      FailedCopySurvives(files, plan, delivery, archive, backup, f);
      UndeliverKeepsCopy(files, copied.files, plan, f, plan.source);
    } else {
      var p := RefusedSurvives(files, plan, delivery, archive, backup, f);
      UndeliverKeepsCopy(files, Rollback(copied.files, plan.source, delivery, archive, backup, f), plan, f, p);
    }
  }

  /** An environment in which everything works but the transition is refused. */
  function OnlyRefused(): Faults {
    Faults(false, false, NoFault, NoFault, false, NoFault, false, Refused, false, false, false, NoFault, false, NoFault)
  }

  lemma LostWhenShared(files: Files, plan: Plan)
    requires plan.source in files && !ArchiveApart(files, plan)
    ensures !Survives(files, Route(files, plan, OnlyRefused()).files, plan)
  {
    var after := Route(files, plan, OnlyRefused()).files;
    assert after == files - {plan.source};
  }

  /** Wherever I/O errors strike, the form survives in the queue, the archive or
      the dead letters, exactly when the archive copy has a path of its own:
      sharing it with the inbox or backup copy lets the rollback delete it. */
  lemma FormSurvivesIff(files: Files, plan: Plan)
    requires plan.source in files
    ensures (forall f :: Survives(files, Route(files, plan, f).files, plan)) <==> ArchiveApart(files, plan)
  {
    if ArchiveApart(files, plan) {
      forall f ensures Survives(files, Route(files, plan, f).files, plan) {
        SurvivesApart(files, plan, f);
      }
    } else {
      LostWhenShared(files, plan);
    }
  }

  /** Separate archive, inbox and backup directories are enough. */
  lemma SeparateDirectoriesSuffice(files: Files, plan: Plan)
    requires plan.inboxDir != Some(plan.archiveDir) && plan.backup.dir != plan.archiveDir
    ensures ArchiveApart(files, plan)
  {
  }

  /** The body as it was, or as one newline and what it was without its trailing
      newlines. */
  predicate SameBody(after: string, before: string) {
    after == before || after == "\n" + TrimRight(before, Frontmatter.IsNewline)
  }

  lemma RoutedBody(text: string, content: string, dropped: set<string>, fields: Frontmatter.Pairs)
    requires Frontmatter.Parse(content).Ok? && RoutedText(text, Frontmatter.Parse(content).value, dropped, fields)
    requires forall i :: 0 <= i < |fields| ==> Frontmatter.PrintablePair(fields[i])
    ensures Frontmatter.Parse(text).Ok?
         && SameBody(Frontmatter.Parse(text).value.1, Frontmatter.Parse(content).value.1)
  {
    var (pairs, body) := Frontmatter.Parse(content).value;
    Frontmatter.ParsedIsPrintable(content);
    Frontmatter.WithoutPrintable(pairs, dropped);
    Frontmatter.RoutedPrintable(Frontmatter.Without(pairs, dropped), fields);
    Frontmatter.ReadsBack(Frontmatter.SetPairs(Frontmatter.Without(pairs, dropped), fields), body);
    if body != "" { Frontmatter.BodyReturnsIff(body); }
  }

  /** The text routed for a parsed form: some keys dropped, others assigned. */
  predicate RoutedText(text: string, form: (Frontmatter.Pairs, string), dropped: set<string>,
                       fields: Frontmatter.Pairs)
  {
    text == Frontmatter.Render(Frontmatter.SetPairs(Frontmatter.Without(form.0, dropped), fields), form.1)
  }

  /** Wherever I/O errors strike, what survives still parses to the form's body,
      whatever form the parser accepted, as long as the fields the router assigns
      can be printed. */
  lemma BodySurvives(files: Files, plan: Plan, f: Faults, dropped: set<string>, fields: Frontmatter.Pairs)
    requires plan.source in files && ArchiveApart(files, plan) && Frontmatter.Parse(files[plan.source]).Ok?
    requires RoutedText(plan.text, Frontmatter.Parse(files[plan.source]).value, dropped, fields)
    requires forall i :: 0 <= i < |fields| ==> Frontmatter.PrintablePair(fields[i])
    ensures var body := Frontmatter.Parse(files[plan.source]).value.1;
            var after := Route(files, plan, f).files;
            exists p :: && CopyAt(files, after, plan, p) && Frontmatter.Parse(after[p]).Ok?
                        && SameBody(Frontmatter.Parse(after[p]).value.1, body)
  {
    SurvivesApart(files, plan, f);
    var after := Route(files, plan, f).files;
    var p :| CopyAt(files, after, plan, p);
    assert after[p] == files[plan.source] || after[p] == plan.text;
    RoutedBody(plan.text, files[plan.source], dropped, fields);
  }

  /** The copies of one attempt. */
  function Copied(files: Files, plan: Plan, f: Faults): Tried {
    WriteCopies(files, plan.source, DeliveryPath(files, plan), ArchivePath(files, plan), BackupPath(files, plan),
                plan.text, f)
  }

  predicate RollbackWorks(f: Faults) {
    !f.undoDelivery && !f.undoBackup && !f.mkdirUndo && f.undoArchive.NoFault?
  }

  /** When the copies were made, the transition was refused and the rollback met
      no I/O error, the files are those before, except that the routed text is
      back in the queue: no inbox, archive or backup copy is left. */
  lemma RollbackRestores(files: Files, plan: Plan, f: Faults)
    requires plan.source in files && ArchiveApart(files, plan) && RollbackWorks(f)
    requires Copied(files, plan, f).ok
    ensures Rollback(Copied(files, plan, f).files, plan.source, DeliveryPath(files, plan), ArchivePath(files, plan),
                     BackupPath(files, plan), f)
            == files[plan.source := plan.text]
  {
  }

  /** So a refused form ends in the dead letters with every other file as before,
      or stays queued when there are none to move it to. */
  lemma RefusedFormIsDeadLetter(files: Files, plan: Plan, f: Faults)
    requires plan.source in files && ArchiveApart(files, plan) && RollbackWorks(f) && f.transition.Refused?
    requires Route(files, plan, f).status == Undelivered && !f.mkdirDead && f.dead.NoFault?
    requires Copied(files, plan, f).ok
    ensures Route(files, plan, f).files
         == if plan.deadDir.None? then files[plan.source := plan.text]
            else (files - {plan.source})[UniquePath(files[plan.source := plan.text],
                                                    Path(plan.deadDir.value, plan.source.name)) := plan.text]
  {
    RollbackRestores(files, plan, f);
  }

  // ---------------------------------------------------------------------
  // What a routed form leaves
  // ---------------------------------------------------------------------

  /** The source is gone, its copies carry the routed text, and all else is as before. */
  ghost predicate Handed(before: Files, after: Files, plan: Plan) {
    var name := plan.source.name;
    var copies := {UniquePath(before, Path(plan.archiveDir, name)), UniquePath(before, plan.backup)}
                  + (if plan.inboxDir.Some? then {UniquePath(before, Path(plan.inboxDir.value, name))} else {});
    && (forall p :: p in copies ==> p !in before && p in after && after[p] == plan.text)
    && (forall p :: p !in copies ==> (p in after <==> p in before && p != plan.source))
    && (forall p :: p !in copies && p in after ==> after[p] == before[p])
  }

  /** No I/O error up to the removal of the source. */
  predicate CopiesWork(delivers: bool, f: Faults) {
    && (delivers ==> f.delivery.NoFault?) && f.archive.NoFault? && !f.mkdirBackup && f.backup.NoFault?
    && !f.unlinkSource
  }

  predicate DirectoriesWork(delivers: bool, f: Faults) {
    !f.mkdirArchive && !(delivers && f.mkdirInbox)
  }

  lemma CopiedIff(files: Files, plan: Plan, f: Faults)
    requires plan.source in files
    ensures Copied(files, plan, f).ok <==> CopiesWork(plan.inboxDir.Some?, f)
    ensures Copied(files, plan, f).ok ==> Handed(files, Copied(files, plan, f).files, plan)
  {
  }

  /** How an attempt ends: routed if and only if everything worked and the ledger
      committed; with an exception if and only if a directory could not be made or
      the ledger crashed; undelivered otherwise. A routed form is in the inbox, the
      archive and the backup with the routed text, and nothing else has changed. */
  lemma RoutedIff(files: Files, plan: Plan, f: Faults)
    requires plan.source in files
    ensures var delivers, r := plan.inboxDir.Some?, Route(files, plan, f);
            && (r.status == Routed <==>
                  DirectoriesWork(delivers, f) && CopiesWork(delivers, f) && f.transition.Committed?)
            && (r.status == Raised <==>
                  !DirectoriesWork(delivers, f) || (CopiesWork(delivers, f) && f.transition.Crashed?))
            && (r.status == Routed ==> Handed(files, r.files, plan))
            && (r.status == Raised ==> r.files == files || (f.transition.Crashed? && Handed(files, r.files, plan)))
  {
    CopiedIff(files, plan, f);
  }

  /** A taken name is numbered: the least free number, before the suffix. */
  lemma {:induction false} FirstFreeIs(files: Files, path: Path, counter: nat) returns (k: nat)
    requires counter >= 1 && forall j :: 1 <= j < counter ==> Numbered(path, j) in files
    ensures k >= 1 && FirstFree(files, path, counter) == Numbered(path, k) && Numbered(path, k) !in files
    ensures forall j :: 1 <= j < k ==> Numbered(path, j) in files
    decreases |files| + 1 - counter
  {
    if Numbered(path, counter) !in files {
      k := counter;
    } else {
      TakenFit(files, path, counter + 1);
      k := FirstFreeIs(files, path, counter + 1);
    }
  }

  lemma {:induction false} LastDotAt(stem: string, ext: string)
    requires '.' !in ext
    ensures LastDot(stem + "." + ext) == Some(|stem|)
  {
    var name := stem + "." + ext;
    if ext == "" {
      assert name == stem + ".";
    } else {
      LastDotAt(stem, ext[..|ext| - 1]);
      assert name[..|name| - 1] == stem + "." + ext[..|ext| - 1];
      assert name[|name| - 1] == ext[|ext| - 1];
    }
  }

  /** Two files of one name: the second gets the least free number, and keeps its suffix. */
  lemma UniquePathIs(files: Files, dir: string, stem: string, ext: string) returns (k: nat)
    requires stem != "" && ext != "" && '.' !in ext
    ensures var path := Path(dir, stem + "." + ext);
            if path !in files then UniquePath(files, path) == path
            else
              && k >= 1 && UniquePath(files, path) == Path(dir, stem + "-" + Decimal(k) + "." + ext)
              && forall j :: 1 <= j < k ==> Path(dir, stem + "-" + Decimal(j) + "." + ext) in files
  {
    var path := Path(dir, stem + "." + ext);
    LastDotAt(stem, ext);
    forall j: nat ensures Numbered(path, j) == Path(dir, stem + "-" + Decimal(j) + "." + ext) {
      assert path.name[..|stem|] == stem && path.name[|stem|..] == "." + ext;
      assert stem + "-" + Decimal(j) + ("." + ext) == stem + "-" + Decimal(j) + "." + ext;
    }
    k := 1;
    if path in files { k := FirstFreeIs(files, path, 1); }
  }

  // ---------------------------------------------------------------------
  // What an undelivered form leaves behind
  // ---------------------------------------------------------------------

  /** The three copies and the dead letters are kept apart. */
  predicate PathsApart(files: Files, plan: Plan) {
    && ArchiveApart(files, plan) && DeliveryPath(files, plan) != Some(BackupPath(files, plan))
    && (plan.deadDir.Some? ==> plan.deadDir != plan.inboxDir && plan.deadDir.value != plan.backup.dir)
  }

  /** The errors after which an undelivered form's inbox copy stays: a failed copy
      is not taken back, and taking back a refused one can fail. */
  predicate InboxLeft(delivers: bool, f: Faults) {
    delivers &&
    if f.delivery.Fault? then f.delivery.left.Some?
    else f.archive.Fault? || f.mkdirBackup || f.backup.Fault? || f.unlinkSource || f.undoDelivery
  }

  predicate BackupLeft(delivers: bool, f: Faults) {
    && !(delivers && f.delivery.Fault?) && f.archive.NoFault? && !f.mkdirBackup
    && if f.backup.Fault? then f.backup.left.Some? else f.unlinkSource || f.undoBackup
  }

  lemma UndeliverElsewhere(files: Files, source: Path, deadDir: Option<string>, f: Faults, p: Path)
    requires p != source && Some(p.dir) != deadDir
    ensures p in Undeliver(files, source, deadDir, f) <==> p in files
  {
  }

  lemma CopiesLeft(files: Files, source: Path, delivery: Option<Path>, archive: Path, backup: Path, text: string,
                   f: Faults)
    requires source in files && archive !in files && backup !in files && archive != backup
    requires delivery.Some? ==> delivery.value !in files && delivery.value != archive && delivery.value != backup
    ensures var copied := WriteCopies(files, source, delivery, archive, backup, text, f);
            var failed := !copied.ok;
            var after := if failed then copied.files else Rollback(copied.files, source, delivery, archive, backup, f);
            && (delivery.Some? ==> (delivery.value in after <==> InboxLeft(true, f)))
            && (backup in after <==> BackupLeft(delivery.Some?, f))
  {
  }

  /** With the paths apart, an undelivered form leaves a copy in the inbox, or in
      the backup directory, exactly after these errors. */
  lemma LeftBehindIff(files: Files, plan: Plan, f: Faults)
    requires plan.source in files && PathsApart(files, plan) && Route(files, plan, f).status == Undelivered
    ensures var after, delivery := Route(files, plan, f).files, DeliveryPath(files, plan);
            && ((delivery.Some? && delivery.value in after) <==> InboxLeft(plan.inboxDir.Some?, f))
            && (BackupPath(files, plan) in after <==> BackupLeft(plan.inboxDir.Some?, f))
  {
    var archive, delivery, backup := ArchivePath(files, plan), DeliveryPath(files, plan), BackupPath(files, plan);
    var copied := WriteCopies(files, plan.source, delivery, archive, backup, plan.text, f);
    CopiesLeft(files, plan.source, delivery, archive, backup, plan.text, f);
    var kept := if copied.ok then Rollback(copied.files, plan.source, delivery, archive, backup, f) else copied.files;
    UndeliverElsewhere(kept, plan.source, plan.deadDir, f, backup);
    if delivery.Some? {
      UndeliverElsewhere(kept, plan.source, plan.deadDir, f, delivery.value);
    }
  }
}
