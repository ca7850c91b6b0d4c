/** The registries and repository_configs tables with their outbox, and the writer
    transactions over them: guard, one DML statement, intents, commit. */
module RegistryStore {
  import opened Common
  import opened FgaIntents

  datatype Visibility = Unspecified | Private | Public

  /** What a visibility column holds after a write and a read: anything but PUBLIC is PRIVATE. */
  function Stored(v: Visibility): Visibility {
    if v.Public? then Public else Private
  }

  /** Requested visibility if explicit, otherwise the registry's default. */
  function ResolveVisibility(requested: Visibility, registryDefault: Visibility): Visibility {
    if requested.Private? || requested.Public? then requested else Stored(registryDefault)
  }

  datatype Status = Active | Deleting

  /** One repository_configs row without its key and creation time. */
  datatype Config = Config(description: string, labels: map<string, string>, visibility: Visibility)

  /** A registries row together with the overlay rows that reference it (ON DELETE CASCADE). */
  datatype Registry = Registry(
    projectId: string, status: Status, defaultVisibility: Visibility, configs: map<string, Config>)

  type Slot = Option<Registry>

  datatype Patch = Patch(
    description: string, labels: map<string, string>, visibility: Visibility,
    applyDescription: bool, applyLabels: bool, applyVisibility: bool)

  datatype Dml =
    | InsertRegistry(projectId: string)
    | UpdateRegistry(applyDefault: bool, defaultVisibility: Visibility)
    | MarkDeleting
    | RemoveRegistry
    | InsertConfig(name: string, config: Config)
    | UpdateConfig(name: string, patch: Patch)
    | RekeyConfig(oldName: string, newName: string)
    | DeleteConfig(name: string)
    | EmitOnly(lockHash: int)
  {
    /** Overlay writes run under the ACTIVE guard. */
    predicate IsOverlay() {
      InsertConfig? || UpdateConfig? || RekeyConfig? || DeleteConfig?
    }
  }

  function Patched(c: Config, p: Patch): Config {
    Config(if p.applyDescription then p.description else c.description,
           if p.applyLabels then p.labels else c.labels,
           if p.applyVisibility then Stored(p.visibility) else c.visibility)
  }

  /** The ACTIVE guard of overlay writes (SELECT status ... FOR UPDATE). */
  function Guard(slot: Slot): Result<Registry, Error> {
    match slot
    case None => Failure(FailedPrecondition("registry not found"))
    case Some(r) =>
      if r.status.Deleting? then Failure(FailedPrecondition("registry is being deleted")) else Success(r)
  }

  function ExecuteOverlay(configs: map<string, Config>, dml: Dml): Result<map<string, Config>, Error>
    requires dml.IsOverlay()
  {
    match dml
    case InsertConfig(name, c) =>
      if name in configs then Failure(AlreadyExists)
      else Success(configs[name := c.(visibility := Stored(c.visibility))])
    case UpdateConfig(name, p) =>
      if name !in configs then Failure(NotFound) else Success(configs[name := Patched(configs[name], p)])
    case RekeyConfig(oldName, newName) =>
      if oldName !in configs then Failure(NotFound)
      else if newName != oldName && newName in configs then Failure(AlreadyExists)
      else Success((configs - {oldName})[newName := configs[oldName]])
    case DeleteConfig(name) =>
      if name !in configs then Failure(NotFound) else Success(configs - {name})
  }

  /** The meaning of one transaction's guard and statement on its registry. */
  function Execute(slot: Slot, dml: Dml): Result<Slot, Error> {
    if dml.IsOverlay() then
      match Guard(slot) {
        case Failure(e) => Failure(e)
        case Success(r) =>
          match ExecuteOverlay(r.configs, dml)
          case Failure(e) => Failure(e)
          case Success(configs) => Success(Some(r.(configs := configs)))
      }
    else
      match dml
      case InsertRegistry(projectId) =>
        if slot.Some? then Failure(AlreadyExists) else Success(Some(Registry(projectId, Active, Private, map[])))
      case UpdateRegistry(apply, v) =>
        if slot.None? || slot.value.status.Deleting? then Failure(NotFound)
        else Success(Some(if apply then slot.value.(defaultVisibility := Stored(v)) else slot.value))
      case MarkDeleting =>
        if slot.None? then Failure(NotFound) else Success(Some(slot.value.(status := Deleting)))
      case RemoveRegistry =>
        if slot.None? then Failure(NotFound) else Success(None)
      case EmitOnly(_) => Success(slot)
  }

  function SlotOf(registries: map<string, Registry>, id: string): Slot {
    if id in registries then Some(registries[id]) else None
  }

  function SetSlot(registries: map<string, Registry>, id: string, slot: Slot): (r: map<string, Registry>)
    ensures SlotOf(r, id) == slot
    ensures forall other :: other != id ==> SlotOf(r, other) == SlotOf(registries, other)
  {
    match slot
    case None => registries - {id}
    case Some(registry) => registries[id := registry]
  }

  /** Intents without tuples write no outbox row. */
  function Emitted(intents: seq<OutboxIntent>): seq<OutboxIntent> {
    if intents == [] then []
    else (if intents[0].intent.tuples == [] then [] else [intents[0]]) + Emitted(intents[1..])
  }

  lemma EmittedAppend(a: seq<OutboxIntent>, x: OutboxIntent)
    ensures Emitted(a + [x]) == if x.intent.tuples == [] then Emitted(a) else Emitted(a) + [x]
  {
    if a == [] {
      assert a + [x] == [x];
    } else {
      assert (a + [x])[1..] == a[1..] + [x];
      EmittedAppend(a[1..], x);
    }
  }

  // ---- the UPDATE statement assembled from the apply flags ----

  datatype Column = DescriptionColumn | LabelsColumn | VisibilityColumn
  datatype Arg = TextArg(text: string) | LabelsArg(labels: map<string, string>)
  datatype SetClause = SetClause(column: Column, placeholder: nat)

  predicate WellBound(sets: seq<SetClause>, args: seq<Arg>) {
    forall i :: 0 <= i < |sets| ==>
      && 1 <= sets[i].placeholder <= |args|
      && (sets[i].column.LabelsColumn? <==> args[sets[i].placeholder - 1].LabelsArg?)
  }

  function Assign(c: Config, column: Column, arg: Arg): Config
    requires column.LabelsColumn? <==> arg.LabelsArg?
  {
    match column
    case DescriptionColumn => c.(description := arg.text)
    case LabelsColumn => c.(labels := arg.labels)
    case VisibilityColumn => c.(visibility := VisibilityFromText(arg.text))
  }

  /** What `UPDATE ... SET sets` does to a row when executed with args. */
  function ApplySets(c: Config, sets: seq<SetClause>, args: seq<Arg>): Config
    requires WellBound(sets, args)
  {
    if sets == [] then c
    else
      var last := sets[|sets| - 1];
      Assign(ApplySets(c, sets[..|sets| - 1], args), last.column, args[last.placeholder - 1])
  }

  function VisibilityText(v: Visibility): (s: string)
    ensures VisibilityFromText(s) == Stored(v)
  {
    assert "PUBLIC"[1] != "PRIVATE"[1];
    if v.Public? then "PUBLIC" else "PRIVATE"
  }

  function VisibilityFromText(s: string): Visibility {
    if s == "PUBLIC" then Public else Private
  }

  lemma ApplySetsIgnoresExtraArgs(c: Config, sets: seq<SetClause>, args: seq<Arg>, extra: Arg)
    requires WellBound(sets, args)
    ensures WellBound(sets, args + [extra]) && ApplySets(c, sets, args + [extra]) == ApplySets(c, sets, args)
  {
    if sets != [] {
      ApplySetsIgnoresExtraArgs(c, sets[..|sets| - 1], args, extra);
    }
  }

  /** Running the statement on any row patches exactly the fields flagged in p. */
  ghost predicate Means(sets: seq<SetClause>, args: seq<Arg>, p: Patch) {
    WellBound(sets, args) && forall c :: ApplySets(c, sets, args) == Patched(c, p)
  }

  /** The patch that also sets one more column. */
  function Also(p: Patch, column: Column, arg: Arg): Patch
    requires column.LabelsColumn? <==> arg.LabelsArg?
  {
    match column
    case DescriptionColumn => p.(description := arg.text, applyDescription := true)
    case LabelsColumn => p.(labels := arg.labels, applyLabels := true)
    case VisibilityColumn => p.(visibility := VisibilityFromText(arg.text), applyVisibility := true)
  }

  /** Appending a clause bound to the next placeholder patches one more column. */
  lemma MeansAppend(sets: seq<SetClause>, args: seq<Arg>, p: Patch, column: Column, arg: Arg)
    requires Means(sets, args, p) && (column.LabelsColumn? <==> arg.LabelsArg?)
    ensures Means(sets + [SetClause(column, |args| + 1)], args + [arg], Also(p, column, arg))
  {
    var sets' := sets + [SetClause(column, |args| + 1)];
    assert sets'[..|sets|] == sets;
    assert WellBound(sets', args + [arg]);
    forall c ensures ApplySets(c, sets', args + [arg]) == Patched(c, Also(p, column, arg)) {
      ApplySetsIgnoresExtraArgs(c, sets, args, arg);
      assert ApplySets(c, sets, args) == Patched(c, p);
    }
  }

  /** Means depends on a patch only through what it does to rows. */
  lemma MeansSame(sets: seq<SetClause>, args: seq<Arg>, p: Patch, q: Patch)
    requires Means(sets, args, p) && forall c :: Patched(c, p) == Patched(c, q)
    ensures Means(sets, args, q)
  {
    forall c ensures ApplySets(c, sets, args) == Patched(c, q) {
      assert Patched(c, p) == Patched(c, q);
    }
  }

  /** Builds the SET list and its arguments; registry id and name take placeholders 1 and 2. */
  method BuildUpdate(registryId: string, p: Patch, name: string) returns (sets: seq<SetClause>, args: seq<Arg>)
    ensures Means(sets, args, p)
    ensures |args| >= 2 && args[..2] == [TextArg(registryId), TextArg(name)]
    ensures sets == [] <==> !p.applyDescription && !p.applyLabels && !p.applyVisibility
  {
    sets, args := [], [TextArg(registryId), TextArg(name)];
    ghost var done := p.(applyDescription := false, applyLabels := false, applyVisibility := false);
    var idx := 3;
    if p.applyDescription {
      sets, args, done := Bind(sets, args, idx, done, DescriptionColumn, TextArg(p.description));
      idx := idx + 1;
    }
    if p.applyLabels {
      sets, args, done := Bind(sets, args, idx, done, LabelsColumn, LabelsArg(p.labels));
      idx := idx + 1;
    }
    if p.applyVisibility {
      sets, args, done := Bind(sets, args, idx, done, VisibilityColumn, TextArg(VisibilityText(p.visibility)));
    }
    MeansSame(sets, args, done, p);
  }

  /** One append to the SET list and one to the arguments. */
  method Bind(sets: seq<SetClause>, args: seq<Arg>, idx: nat, ghost p: Patch, column: Column, arg: Arg)
    returns (sets': seq<SetClause>, args': seq<Arg>, ghost p': Patch)
    requires Means(sets, args, p) && (column.LabelsColumn? <==> arg.LabelsArg?) && idx == |args| + 1
    ensures sets' == sets + [SetClause(column, idx)] && args' == args + [arg]
    ensures p' == Also(p, column, arg) && Means(sets', args', p')
  {
    MeansAppend(sets, args, p, column, arg);
    sets', args', p' := sets + [SetClause(column, idx)], args + [arg], Also(p, column, arg);
  }

  // ---- the database ----

  /** What the database does to one transaction or read: nothing, fail at the n-th outbox insert (or,
      past the last one, at the commit), or commit and lose the acknowledgement. */
  datatype Fate = Smooth | FailsAt(n: nat) | ReplyLost

  /** Committed tables. Each writer transaction runs under a fate; whatever fails inside it rolls
      everything back except the identity sequence. */
  class Database {
    var registries: map<string, Registry>
    var outbox: map<nat, OutboxIntent>
    var nextId: nat

    constructor ()
      ensures registries == map[] && outbox == map[] && nextId == 0
    {
      registries, outbox, nextId := map[], map[], 0;
    }

    /** The outbox once `rows` are inserted with consecutive ids from `first`. */
    static function Numbered(outbox: map<nat, OutboxIntent>, first: nat, rows: seq<OutboxIntent>)
      : map<nat, OutboxIntent>
      decreases |rows|
    {
      if rows == [] then outbox else Numbered(outbox[first := rows[0]], first + 1, rows[1..])
    }

    static lemma NumberedAppend(outbox: map<nat, OutboxIntent>, first: nat, rows: seq<OutboxIntent>, x: OutboxIntent)
      ensures Numbered(outbox, first, rows + [x]) == Numbered(outbox, first, rows)[first + |rows| := x]
      decreases |rows|
    {
      if rows == [] {
        assert rows + [x] == [x];
      } else {
        assert (rows + [x])[1..] == rows[1..] + [x];
        NumberedAppend(outbox[first := rows[0]], first + 1, rows[1..], x);
      }
    }

    /** Runs one guard and statement the way the adapter does: overlay writes lock and check the
        registry first, and a PATCH is assembled from its flags and then run on the row. */
    static method RunStatement(registryId: string, slot: Slot, dml: Dml) returns (r: Result<Slot, Error>)
      ensures r == Execute(slot, dml)
    {
      if !dml.IsOverlay() {
        return Execute(slot, dml);
      }
      var guard := Guard(slot);
      if guard.Failure? {
        return Failure(guard.error);
      }
      var registry := guard.value;
      if dml.UpdateConfig? {
        if dml.name !in registry.configs {
          return Failure(NotFound);
        }
        var sets, args := BuildUpdate(registryId, dml.patch, dml.name);
        var row := ApplySets(registry.configs[dml.name], sets, args);
        return Success(Some(registry.(configs := registry.configs[dml.name := row])));
      }
      var executed := ExecuteOverlay(registry.configs, dml);
      if executed.Failure? {
        return Failure(executed.error);
      }
      return Success(Some(registry.(configs := executed.value)));
    }

    /** Guard, DML and intent emission in one transaction: all of it becomes visible or none, and
        a caller that is told of success knows which. */
    method RunTx(registryId: string, dml: Dml, intents: seq<OutboxIntent>, fate: Fate)
      returns (r: Result<Slot, Error>, ghost committed: bool)
      modifies this
      ensures fate.Smooth? ==> r == Execute(old(SlotOf(registries, registryId)), dml)
      ensures r.Success? ==> committed && r == Execute(old(SlotOf(registries, registryId)), dml)
      ensures r.Failure? ==> r == Execute(old(SlotOf(registries, registryId)), dml) || r.error == Unavailable
      ensures r.Failure? && committed ==> fate.ReplyLost?
      ensures committed ==>
                && Execute(old(SlotOf(registries, registryId)), dml).Success?
                && registries == SetSlot(old(registries), registryId,
                                         Execute(old(SlotOf(registries, registryId)), dml).value)
                && outbox == Numbered(old(outbox), old(nextId), Emitted(intents))
                && nextId == old(nextId) + |Emitted(intents)|
      ensures !committed ==>
                && registries == old(registries) && outbox == old(outbox)
                && old(nextId) <= nextId <= old(nextId) + |Emitted(intents)|
    {
      committed := false;
      var executed := RunStatement(registryId, SlotOf(registries, registryId), dml);
      if executed.Failure? {
        return executed, false;
      }
      var pending := outbox;
      var i := 0;
      var written := 0;
      while i < |intents|
        invariant 0 <= i <= |intents|
        invariant !committed && registries == old(registries) && outbox == old(outbox)
        invariant written == |Emitted(intents[..i])| && nextId == old(nextId) + written
        invariant |Emitted(intents[..i])| <= |Emitted(intents)|
        invariant pending == Numbered(old(outbox), old(nextId), Emitted(intents[..i]))
      {
        if fate == FailsAt(i) {
          return Failure(Unavailable), false;
        }
        EmittedAppend(intents[..i], intents[i]);
        assert intents[..i + 1] == intents[..i] + [intents[i]];
        EmittedPrefix(intents, i + 1);
        if intents[i].intent.tuples != [] {
          NumberedAppend(old(outbox), old(nextId), Emitted(intents[..i]), intents[i]);
          pending := pending[nextId := intents[i]];
          nextId := nextId + 1;
          written := written + 1;
        }
        i := i + 1;
      }
      assert intents[..i] == intents;
      if fate.FailsAt? {
        return Failure(Unavailable), false;
      }
      registries := SetSlot(registries, registryId, executed.value);
      outbox := pending;
      return if fate.ReplyLost? then Failure(Unavailable) else executed, true;
    }
  }

  lemma EmittedPrefix(intents: seq<OutboxIntent>, n: nat)
    requires n <= |intents|
    ensures |Emitted(intents[..n])| <= |Emitted(intents)|
  {
    if n != 0 {
      assert intents[..n][1..] == intents[1..][..n - 1];
      EmittedPrefix(intents[1..], n - 1);
    }
  }
}
