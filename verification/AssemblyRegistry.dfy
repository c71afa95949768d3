/**
 The registry of loaded extensions and the assembly of a turn (packages/agent-runtime/src/registry.ts). While an
 assembly awaits a contributor, other code may enable or disable extensions.
 */
module AssemblyRegistry {
  import opened Prelude
  import opened StableSort
  import R = ResolveExtensions

  // ---- Values ----

  type Handle = nat

  datatype HookName =
    | TurnStart | TurnEnd | HistoryChanged | BeforeLlmCall | LlmCallPrepared | AfterLlmCall
    | BeforeToolCall | AfterToolCall | StepEnd

  /** What an extension registers through the facade it gets during its init. */
  datatype Registration =
    | RegisterTool(handle: Handle)
    | ContributeSystemPrompt(handle: Handle)
    | ContributeUserPrompt(handle: Handle)
    | RegisterReminder(handle: Handle)
    | On(event: HookName, handle: Handle)

  /** A loaded extension with its contributions, of each kind in the order of their registration. */
  datatype Loaded = Loaded(id: string, tools: seq<Handle>, systemPrompts: seq<Handle>, userPrompts: seq<Handle>,
                           reminders: seq<Handle>, hooks: map<HookName, seq<Handle>>)

  function HandlersOf(loaded: Loaded, event: HookName): seq<Handle> {
    if event in loaded.hooks then loaded.hooks[event] else []
  }

  function NothingLoaded(id: string): Loaded {
    Loaded(id, [], [], [], [], map[])
  }

  function Contribute(loaded: Loaded, r: Registration): Loaded {
    match r
    case RegisterTool(h) => loaded.(tools := loaded.tools + [h])
    case ContributeSystemPrompt(h) => loaded.(systemPrompts := loaded.systemPrompts + [h])
    case ContributeUserPrompt(h) => loaded.(userPrompts := loaded.userPrompts + [h])
    case RegisterReminder(h) => loaded.(reminders := loaded.reminders + [h])
    case On(event, h) => loaded.(hooks := loaded.hooks[event := HandlersOf(loaded, event) + [h]])
  }

  function ContributeAll(loaded: Loaded, rs: seq<Registration>): (r: Loaded)
    ensures r.id == loaded.id
    decreases |rs|
  {
    if rs == [] then loaded else ContributeAll(Contribute(loaded, rs[0]), rs[1..])
  }

  datatype Ctx = Ctx(sessionId: string, turn: nat)

  datatype Tool = Tool(name: string, body: nat)

  datatype Reminder = Reminder(content: string, priority: Option<real>)

  datatype Emission = Emission(provider: Handle, reminder: Reminder)

  /** A handler; those of steps are bound to the context of their turn. */
  datatype Wrapped = Wrapped(handler: Handle, bound: Option<Ctx>)

  datatype Outcome<+T> = Returns(value: T) | Throws

  function ValueOr<T>(outcome: Outcome<T>, other: T): T {
    if outcome.Returns? then outcome.value else other
  }

  /**
   The behaviour of the contributors: the registrations of an init (or its failure), the tools a tool
   contribution resolves to (none for null), the prompts (empty for none) and the reminders. Each may throw.
   */
  datatype World = World(
    init: R.Extension -> Option<seq<Registration>>,
    tools: (Handle, Ctx) -> Outcome<seq<Tool>>,
    systemPrompt: (Handle, Ctx) -> Outcome<string>,
    userPrompt: (Handle, Ctx) -> Outcome<string>,
    reminder: (Handle, Ctx) -> Outcome<Option<Reminder>>)

  datatype Error =
    | NotNew
    | NotReady
    | DuplicateExtension(id: string)
    | InitFailed(id: string)
    | UnknownExtension(id: string)
    | OutsideInit(id: string)
    | DuplicateTool(id: string)
    | ContributorFailed(handle: Handle)
    | Unresolved(reason: R.Error)

  datatype Result<+T> = Ok(value: T) | Err(error: Error)

  // ---- Lists ----

  ghost predicate DistinctNames(tools: seq<Tool>) {
    forall i, j :: 0 <= i < j < |tools| ==> tools[i].name != tools[j].name
  }

  lemma PrefixNames(part: seq<Tool>, all: seq<Tool>)
    requires part <= all && DistinctNames(all)
    ensures DistinctNames(part)
  {
    forall i, j | 0 <= i < j < |part| ensures part[i].name != part[j].name {
      assert all[i] == part[i] && all[j] == part[j];
    }
  }

  function Names(tools: seq<Tool>): set<string> {
    set t | t in tools :: t.name
  }

  function NonEmpty(s: string): seq<string> {
    if s == "" then [] else [s]
  }

  function Join(parts: seq<string>): string {
    if parts == [] then "" else if |parts| == 1 then parts[0] else parts[0] + "\n\n" + Join(parts[1..])
  }

  // ---- What the enabled extensions contribute ----

  datatype Snapshot = Snapshot(loaded: Loaded, enabled: bool)

  function Resolves(world: World, ctx: Ctx): Handle -> seq<Tool> {
    (h: Handle) => ValueOr(world.tools(h, ctx), [])
  }

  function SystemPrompts(world: World, ctx: Ctx): Handle -> seq<string> {
    (h: Handle) => NonEmpty(ValueOr(world.systemPrompt(h, ctx), ""))
  }

  function UserPrompts(world: World, ctx: Ctx): Handle -> seq<string> {
    (h: Handle) => NonEmpty(ValueOr(world.userPrompt(h, ctx), ""))
  }

  function Emits(world: World, ctx: Ctx): Handle -> seq<Emission> {
    (h: Handle) =>
      var reminder := ValueOr(world.reminder(h, ctx), None);
      if reminder.Some? then [Emission(h, reminder.value)] else []
  }

  function Wrap(ctx: Ctx, event: HookName, h: Handle): Wrapped {
    Wrapped(h, if event.TurnStart? || event.TurnEnd? then None else Some(ctx))
  }

  function Wraps(ctx: Ctx, event: HookName): Handle -> seq<Wrapped> {
    (h: Handle) => [Wrap(ctx, event, h)]
  }

  function ToolsOf(world: World, ctx: Ctx): Snapshot -> seq<Tool> {
    (s: Snapshot) => if s.enabled then Collect(s.loaded.tools, Resolves(world, ctx)) else []
  }

  function SystemOf(world: World, ctx: Ctx): Snapshot -> seq<string> {
    (s: Snapshot) => if s.enabled then Collect(s.loaded.systemPrompts, SystemPrompts(world, ctx)) else []
  }

  function UserOf(world: World, ctx: Ctx): Snapshot -> seq<string> {
    (s: Snapshot) => if s.enabled then Collect(s.loaded.userPrompts, UserPrompts(world, ctx)) else []
  }

  function EmissionsOf(world: World, ctx: Ctx): Snapshot -> seq<Emission> {
    (s: Snapshot) => if s.enabled then Collect(s.loaded.reminders, Emits(world, ctx)) else []
  }

  function HooksOf(ctx: Ctx, event: HookName): Snapshot -> seq<Wrapped> {
    (s: Snapshot) => if s.enabled then Collect(HandlersOf(s.loaded, event), Wraps(ctx, event)) else []
  }

  function IdIf(enabled: bool): Snapshot -> seq<string> {
    (s: Snapshot) => if s.enabled == enabled then [s.loaded.id] else []
  }

  function Priority(e: Emission): real {
    if e.reminder.priority.Some? then e.reminder.priority.value else 0.0
  }

  datatype ModelContext = ModelContext(systemPrompt: string, tools: seq<Tool>)

  datatype Turn = Turn(context: ModelContext, userPrompt: string, reminders: seq<Emission>,
                       hooks: map<HookName, seq<Wrapped>>, enabledIds: seq<string>, disabledIds: seq<string>)

  // ---- What fails ----

  predicate AnyThrows<T>(handles: seq<Handle>, ctx: Ctx, f: (Handle, Ctx) -> Outcome<T>) {
    exists h | h in handles :: f(h, ctx).Throws?
  }

  /** A tool or system prompt contributor of an enabled extension throws. */
  predicate ContextThrows(world: World, ctx: Ctx, s: Snapshot) {
    s.enabled &&
      (AnyThrows(s.loaded.tools, ctx, world.tools) || AnyThrows(s.loaded.systemPrompts, ctx, world.systemPrompt))
  }

  /** A user prompt contributor or a reminder provider of an enabled extension throws. */
  predicate RestThrows(world: World, ctx: Ctx, s: Snapshot) {
    s.enabled &&
      (AnyThrows(s.loaded.userPrompts, ctx, world.userPrompt) || AnyThrows(s.loaded.reminders, ctx, world.reminder))
  }

  predicate SomeContextThrows(world: World, ctx: Ctx, snaps: seq<Snapshot>) {
    exists s | s in snaps :: ContextThrows(world, ctx, s)
  }

  predicate SomeRestThrows(world: World, ctx: Ctx, snaps: seq<Snapshot>) {
    exists s | s in snaps :: RestThrows(world, ctx, s)
  }

  /** The error names a tool given twice, or a contributor that has thrown. */
  predicate Explains(error: Error, duplicate: bool, throws: bool) {
    (error.DuplicateTool? && duplicate) || (error.ContributorFailed? && throws)
  }

  /** The value, unless something fails; then an error that is there. */
  predicate Settles<T(==)>(r: Result<T>, value: T, duplicate: bool, throws: bool) {
    if duplicate || throws then r.Err? && Explains(r.error, duplicate, throws) else r == Ok(value)
  }

  /** What a model context assembled from a snapshot is, or why there is none. */
  ghost predicate IsContext(world: World, snaps: seq<Snapshot>, ctx: Ctx, seed: seq<Tool>, r: Result<ModelContext>) {
    var tools := seed + Collect(snaps, ToolsOf(world, ctx));
    Settles(r, ModelContext(Join(Collect(snaps, SystemOf(world, ctx))), tools),
            !DistinctNames(tools), SomeContextThrows(world, ctx, snaps))
  }

  /** What a turn assembled from a snapshot is, or why there is none. */
  ghost predicate IsTurn(world: World, snaps: seq<Snapshot>, ctx: Ctx, seed: seq<Tool>, seedPrompt: string,
                         r: Result<Turn>) {
    var tools := seed + Collect(snaps, ToolsOf(world, ctx));
    var throws := SomeContextThrows(world, ctx, snaps) || SomeRestThrows(world, ctx, snaps);
    if DistinctNames(tools) && !throws then
      && r.Ok?
      && r.value.context == ModelContext(Join(Collect(snaps, SystemOf(world, ctx))), tools)
      && r.value.userPrompt == Join(NonEmpty(seedPrompt) + Collect(snaps, UserOf(world, ctx)))
      && r.value.reminders == SortDown(Collect(snaps, EmissionsOf(world, ctx)), Priority)
      && (forall event :: HandlersIn(r.value.hooks, event) == Collect(snaps, HooksOf(ctx, event)))
      && r.value.enabledIds == Collect(snaps, IdIf(true)) && r.value.disabledIds == Collect(snaps, IdIf(false))
    else r.Err? && Explains(r.error, !DistinctNames(tools), throws)
  }

  // ---- The registry ----

  datatype Lifecycle = New | Initializing | Ready | Failed

  class Registry {
    const world: World
    var state: Lifecycle
    var active: Option<string>
    var extensions: seq<Loaded>
    var enabledGlobal: map<string, bool>
    var sessionOverrides: map<string, map<string, bool>>

    ghost predicate Valid()
      reads this`state, this`extensions, this`enabledGlobal
    {
      && (state == New ==> extensions == [])
      && forall l | l in extensions :: l.id in enabledGlobal
    }

    constructor (world: World)
      ensures this.world == world && Valid() && state == New && extensions == [] && sessionOverrides == map[]
    {
      this.world := world;
      state, active, extensions, enabledGlobal, sessionOverrides := New, None, [], map[], map[];
    }

    predicate Knows(id: string)
      reads this`extensions
    {
      exists l :: l in extensions && l.id == id
    }

    /** Whether an extension is enabled for a session: its override there, else its global state. */
    predicate EnabledIn(sessionId: string, id: string)
      reads this`enabledGlobal, this`sessionOverrides
    {
      if sessionId in sessionOverrides && id in sessionOverrides[sessionId] then sessionOverrides[sessionId][id]
      else id in enabledGlobal && enabledGlobal[id]
    }

    predicate Overrides(sessionId: string, id: string)
      reads this`sessionOverrides
    {
      sessionId in sessionOverrides && id in sessionOverrides[sessionId]
    }

    function Snapshots(ctx: Ctx): (r: seq<Snapshot>)
      reads this
      ensures |r| == |extensions|
      ensures forall i | 0 <= i < |r| :: r[i] == Snapshot(extensions[i], EnabledIn(ctx.sessionId, extensions[i].id))
    {
      seq(|extensions|, i requires 0 <= i < |extensions| reads this =>
        Snapshot(extensions[i], EnabledIn(ctx.sessionId, extensions[i].id)))
    }

    /** Changes one extension for one session, or everywhere but where a session overrides it. */
    method SetEnabled(id: string, enabled: bool, scope: Option<string>) returns (r: Result<()>)
      requires Valid()
      modifies this`enabledGlobal, this`sessionOverrides
      ensures Valid()
      ensures r == if state != Ready then Err(NotReady) else if !Knows(id) then Err(UnknownExtension(id)) else Ok(())
      ensures r.Err? ==> enabledGlobal == old(enabledGlobal) && sessionOverrides == old(sessionOverrides)
      ensures r.Ok? && scope.Some? && scope.value != "" ==>
        forall s, i :: EnabledIn(s, i) == if s == scope.value && i == id then enabled else old(EnabledIn(s, i))
      ensures r.Ok? && (scope.None? || scope.value == "") ==>
        forall s, i :: EnabledIn(s, i) == if i == id && !old(Overrides(s, i)) then enabled else old(EnabledIn(s, i))
    {
      if state != Ready {
        return Err(NotReady);
      }
      if !Knows(id) {
        return Err(UnknownExtension(id));
      }
      if scope.Some? && scope.value != "" {
        var overrides := if scope.value in sessionOverrides then sessionOverrides[scope.value] else map[];
        sessionOverrides := sessionOverrides[scope.value := overrides[id := enabled]];
      } else {
        enabledGlobal := enabledGlobal[id := enabled];
      }
      return Ok(());
    }

    method DisposeSession(sessionId: string) returns (r: Result<()>)
      modifies this`sessionOverrides
      ensures r == if state == Ready then Ok(()) else Err(NotReady)
      ensures r.Ok? ==> forall s, i :: Overrides(s, i) == (s != sessionId && old(Overrides(s, i)))
      ensures r.Ok? ==> forall s, i ::
          EnabledIn(s, i) == if s == sessionId then i in enabledGlobal && enabledGlobal[i] else old(EnabledIn(s, i))
      ensures r.Err? ==> sessionOverrides == old(sessionOverrides)
    {
      if state != Ready {
        return Err(NotReady);
      }
      sessionOverrides := sessionOverrides - {sessionId};
      return Ok(());
    }

    /** An await: meanwhile any calls may come in. */
    method Yield()
      requires Valid()
      modifies this`enabledGlobal, this`sessionOverrides
      ensures Valid()
    {
      var calls: int := *;
      while calls > 0
        invariant Valid()
      {
        calls := calls - 1;
        var id: string := *;
        var enabled: bool := *;
        var scope: Option<string> := *;
        var dispose: bool := *;
        if dispose {
          var _ := DisposeSession(id);
        } else {
          var _ := SetEnabled(id, enabled, scope);
        }
      }
    }

    // ---- Initialisation ----

    /** A registration counts only inside the owner's own init window. */
    method Register(owner: string, registration: Registration) returns (r: Result<()>)
      requires active.Some? ==> extensions != [] && extensions[|extensions| - 1].id == active.value
      modifies this`extensions
      ensures r == if state == Initializing && active == Some(owner) then Ok(()) else Err(OutsideInit(owner))
      ensures r.Err? ==> extensions == old(extensions)
      ensures r.Ok? ==> extensions == Amend(old(extensions), registration)
    {
      if state != Initializing || active != Some(owner) {
        return Err(OutsideInit(owner));
      }
      extensions := Amend(extensions, registration);
      return Ok(());
    }

    /**
     An await of an init: meanwhile facades of other extensions may try to register, and anyone may try to enable or
     disable extensions or to dispose of sessions. Nothing of it has an effect.
     */
    method YieldInInit(id: string)
      requires Valid() && state == Initializing && active == Some(id)
      requires extensions != [] && extensions[|extensions| - 1].id == id
      modifies this`extensions, this`enabledGlobal, this`sessionOverrides
      ensures Valid() && extensions == old(extensions)
      ensures enabledGlobal == old(enabledGlobal) && sessionOverrides == old(sessionOverrides)
    {
      var calls: int := *;
      while calls > 0
        invariant Valid() && extensions == old(extensions)
        invariant enabledGlobal == old(enabledGlobal) && sessionOverrides == old(sessionOverrides)
      {
        calls := calls - 1;
        var other: string := *;
        var registration: Registration := *;
        if other != id {
          var _ := Register(other, registration);
        }
        var enabled: bool := *;
        var scope: Option<string> := *;
        var _ := SetEnabled(other, enabled, scope);
        var _ := DisposeSession(other);
      }
    }

    method RunInit(id: string, registrations: seq<Registration>)
      requires Valid() && state == Initializing && active == Some(id)
      requires extensions != [] && extensions[|extensions| - 1] == NothingLoaded(id)
      modifies this`extensions, this`enabledGlobal, this`sessionOverrides
      ensures Valid() && enabledGlobal == old(enabledGlobal) && sessionOverrides == old(sessionOverrides)
      ensures extensions == old(extensions)[..|old(extensions)| - 1] + [ContributeAll(NothingLoaded(id), registrations)]
    {
      ghost var before := extensions[..|extensions| - 1];
      ghost var last := NothingLoaded(id);
      assert extensions == before + [last];
      for i := 0 to |registrations|
        invariant extensions == before + [last] && last.id == id
        invariant Valid() && enabledGlobal == old(enabledGlobal) && sessionOverrides == old(sessionOverrides)
        invariant ContributeAll(last, registrations[i..]) == ContributeAll(NothingLoaded(id), registrations)
      {
        YieldInInit(id);
        var registered := Register(id, registrations[i]);
        assert registrations[i..][1..] == registrations[i + 1..];
        last := Contribute(last, registrations[i]);
      }
      YieldInInit(id);
    }

    method InitExtensions(list: seq<R.Extension>) returns (r: Result<()>)
      requires Valid()
      modifies this
      ensures Valid()
      ensures old(state) != New ==>
        r == Err(NotNew) && state == old(state) && extensions == old(extensions) && enabledGlobal == old(enabledGlobal)
      ensures old(state) == New ==> (r.Ok? <==> R.DistinctIds(list) && forall e | e in list :: world.init(e).Some?)
      ensures old(state) == New && r.Ok? ==>
        state == Ready && extensions == LoadAll(world, list) && forall l | l in extensions :: enabledGlobal[l.id]
      ensures old(state) == New && r.Err? ==> state == Failed && extensions == []
      ensures old(state) == New && r.Err? ==>
        if r.error.DuplicateExtension? then !R.DistinctIds(list) else r.error.InitFailed?
    {
      if state != New {
        return Err(NotNew);
      }
      state := Initializing;
      enabledGlobal := map[];
      r := LoadEach(list);
      active := None;
      if r.Ok? {
        state := Ready;
      } else {
        state, extensions, enabledGlobal, sessionOverrides := Failed, [], map[], map[];
      }
    }

    method LoadEach(list: seq<R.Extension>) returns (r: Result<()>)
      requires state == Initializing && extensions == [] && enabledGlobal == map[]
      modifies this`extensions, this`enabledGlobal, this`sessionOverrides, this`active
      ensures r.Ok? <==> Loadable(world, list)
      ensures r.Ok? ==>
        extensions == LoadAll(world, list) && forall l | l in extensions :: l.id in enabledGlobal && enabledGlobal[l.id]
      ensures r.Err? ==> if r.error.DuplicateExtension? then !R.DistinctIds(list) else r.error.InitFailed?
    {
      for i := 0 to |list|
        invariant Loadable(world, list[..i]) && extensions == LoadAll(world, list[..i])
        invariant forall l | l in extensions :: l.id in enabledGlobal && enabledGlobal[l.id]
      {
        LoadedIds(world, list[..i]);
        LoadableStep(world, list, i);
        if Knows(list[i].id) {
          return Err(DuplicateExtension(list[i].id));
        }
        r := LoadOne(list[i]);
        if r.Err? {
          return;
        }
        LoadAllSnoc(world, list, i);
      }
      assert list[..|list|] == list;
      return Ok(());
    }

    method LoadOne(e: R.Extension) returns (r: Result<()>)
      requires Valid() && state == Initializing
      modifies this`extensions, this`enabledGlobal, this`sessionOverrides, this`active
      ensures r == if world.init(e).Some? then Ok(()) else Err(InitFailed(e.id))
      ensures r.Ok? ==>
        extensions == old(extensions) + [Load(world, e)] && enabledGlobal == old(enabledGlobal)[e.id := true]
    {
      extensions := extensions + [NothingLoaded(e.id)];
      enabledGlobal := enabledGlobal[e.id := true];
      active := Some(e.id);
      var registrations := world.init(e);
      if registrations.Some? {
        RunInit(e.id, registrations.value);
      }
      active := None;
      return if registrations.Some? then Ok(()) else Err(InitFailed(e.id));
    }

    // ---- Assembly ----

    method AppendTools(handles: seq<Handle>, ctx: Ctx, tools: seq<Tool>) returns (r: Result<seq<Tool>>)
      requires Valid() && DistinctNames(tools)
      modifies this`enabledGlobal, this`sessionOverrides
      ensures Valid()
      ensures var all := tools + Collect(handles, Resolves(world, ctx));
        Settles(r, all, !DistinctNames(all), AnyThrows(handles, ctx, world.tools))
    {
      var appended := tools;
      for i := 0 to |handles|
        invariant Valid()
        invariant appended == tools + Collect(handles[..i], Resolves(world, ctx)) && DistinctNames(appended)
        invariant !AnyThrows(handles[..i], ctx, world.tools)
      {
        Yield();
        var resolved := world.tools(handles[i], ctx);
        ThrowsStep(handles, i, ctx, world.tools);
        if resolved.Throws? {
          return Err(ContributorFailed(handles[i]));
        }
        CollectSnoc(handles, i, Resolves(world, ctx));
        var more := AppendCatalog(resolved.value, appended);
        assert appended + Resolves(world, ctx)(handles[i]) == tools + Collect(handles[..i + 1], Resolves(world, ctx));
        if more.Err? {
          NamesOfPart(tools, handles, i + 1, Resolves(world, ctx));
          return more;
        }
        appended := more.value;
      }
      assert handles[..|handles|] == handles;
      return Ok(appended);
    }

    method AppendSystemPrompts(handles: seq<Handle>, ctx: Ctx, prefixes: seq<string>) returns (r: Result<seq<string>>)
      requires Valid()
      modifies this`enabledGlobal, this`sessionOverrides
      ensures Valid()
      ensures Settles(r, prefixes + Collect(handles, SystemPrompts(world, ctx)), false,
                      AnyThrows(handles, ctx, world.systemPrompt))
    {
      var appended := prefixes;
      for i := 0 to |handles|
        invariant Valid() && appended == prefixes + Collect(handles[..i], SystemPrompts(world, ctx))
        invariant !AnyThrows(handles[..i], ctx, world.systemPrompt)
      {
        Yield();
        var prefix := world.systemPrompt(handles[i], ctx);
        ThrowsStep(handles, i, ctx, world.systemPrompt);
        if prefix.Throws? {
          return Err(ContributorFailed(handles[i]));
        }
        CollectSnoc(handles, i, SystemPrompts(world, ctx));
        if prefix.value != "" {
          appended := appended + [prefix.value];
        }
      }
      assert handles[..|handles|] == handles;
      return Ok(appended);
    }

    method AppendUserPrompts(handles: seq<Handle>, ctx: Ctx, prefixes: seq<string>) returns (r: Result<seq<string>>)
      requires Valid()
      modifies this`enabledGlobal, this`sessionOverrides
      ensures Valid()
      ensures Settles(r, prefixes + Collect(handles, UserPrompts(world, ctx)), false,
                      AnyThrows(handles, ctx, world.userPrompt))
    {
      var appended := prefixes;
      for i := 0 to |handles|
        invariant Valid() && appended == prefixes + Collect(handles[..i], UserPrompts(world, ctx))
        invariant !AnyThrows(handles[..i], ctx, world.userPrompt)
      {
        Yield();
        var prefix := world.userPrompt(handles[i], ctx);
        ThrowsStep(handles, i, ctx, world.userPrompt);
        if prefix.Throws? {
          return Err(ContributorFailed(handles[i]));
        }
        CollectSnoc(handles, i, UserPrompts(world, ctx));
        if prefix.value != "" {
          appended := appended + [prefix.value];
        }
      }
      assert handles[..|handles|] == handles;
      return Ok(appended);
    }

    method AppendReminders(handles: seq<Handle>, ctx: Ctx, reminders: seq<Emission>) returns (r: Result<seq<Emission>>)
      requires Valid()
      modifies this`enabledGlobal, this`sessionOverrides
      ensures Valid()
      ensures Settles(r, reminders + Collect(handles, Emits(world, ctx)), false,
                      AnyThrows(handles, ctx, world.reminder))
    {
      var emitted := reminders;
      for i := 0 to |handles|
        invariant Valid() && emitted == reminders + Collect(handles[..i], Emits(world, ctx))
        invariant !AnyThrows(handles[..i], ctx, world.reminder)
      {
        Yield();
        var emission := world.reminder(handles[i], ctx);
        ThrowsStep(handles, i, ctx, world.reminder);
        if emission.Throws? {
          return Err(ContributorFailed(handles[i]));
        }
        CollectSnoc(handles, i, Emits(world, ctx));
        if emission.value.Some? {
          emitted := emitted + [Emission(handles[i], emission.value.value)];
        }
      }
      assert handles[..|handles|] == handles;
      return Ok(emitted);
    }

    /** What one extension adds to a model context. */
    method AppendModelContext(s: Snapshot, ctx: Ctx, tools: seq<Tool>, system: seq<string>) returns (r: Result<Context>)
      requires Valid() && DistinctNames(tools)
      modifies this`enabledGlobal, this`sessionOverrides
      ensures Valid()
      ensures var all := tools + ToolsOf(world, ctx)(s);
        Settles(r, Context(all, system + SystemOf(world, ctx)(s)), !DistinctNames(all), ContextThrows(world, ctx, s))
    {
      if !s.enabled {
        return Ok(Context(tools + [], system + []));
      }
      var appended := AppendTools(s.loaded.tools, ctx, tools);
      if appended.Err? {
        return Err(appended.error);
      }
      var prefixes := AppendSystemPrompts(s.loaded.systemPrompts, ctx, system);
      return if prefixes.Ok? then Ok(Context(appended.value, prefixes.value)) else Err(prefixes.error);
    }

    /** The check of the seed, before the first extension. */
    method StartContext(ghost snaps: seq<Snapshot>, ctx: Ctx, seed: seq<Tool>) returns (r: Result<Context>)
      ensures r.Ok? ==> ContextSoFar(world, [], ctx, seed, r.value)
      ensures r.Err? ==> Explained(world, snaps, ctx, seed, r.error)
    {
      var start := AppendCatalog(seed, []);
      assert [] + seed == seed && seed + [] == seed;
      if start.Err? {
        NamesOfPart(seed, snaps, 0, ToolsOf(world, ctx));
        return Err(start.error);
      }
      return Ok(Context(seed, []));
    }

    method ExtendContext(snaps: seq<Snapshot>, i: nat, ctx: Ctx, ghost seed: seq<Tool>, context: Context)
      returns (r: Result<Context>)
      requires Valid() && i < |snaps| && ContextSoFar(world, snaps[..i], ctx, seed, context)
      modifies this`enabledGlobal, this`sessionOverrides
      ensures Valid()
      ensures r.Ok? ==> ContextSoFar(world, snaps[..i + 1], ctx, seed, r.value)
      ensures r.Err? ==> Explained(world, snaps, ctx, seed, r.error)
    {
      r := AppendModelContext(snaps[i], ctx, context.tools, context.system);
      CollectMore(seed, snaps, i, ToolsOf(world, ctx), context.tools);
      CollectSnoc(snaps, i, SystemOf(world, ctx));
      SnapsStep(world, snaps, i, ctx);
      if r.Err? && r.error.DuplicateTool? {
        NamesOfPart(seed, snaps, i + 1, ToolsOf(world, ctx));
      }
    }

    /** Depends on the enablement at the call alone, whatever is changed while it awaits. */
    method AssembleModelContext(ctx: Ctx, seed: seq<Tool>) returns (r: Result<ModelContext>)
      requires Valid()
      modifies this`enabledGlobal, this`sessionOverrides
      ensures Valid()
      ensures if state == Ready then IsContext(world, old(Snapshots(ctx)), ctx, seed, r) else r == Err(NotReady)
    {
      if state != Ready {
        return Err(NotReady);
      }
      var snaps := Snapshots(ctx);
      var context := StartContext(snaps, ctx, seed);
      for i := 0 to |snaps|
        invariant Valid()
        invariant context.Ok? ==> ContextSoFar(world, snaps[..i], ctx, seed, context.value)
        invariant context.Err? ==> Explained(world, snaps, ctx, seed, context.error)
      {
        if context.Err? {
          return Err(context.error);
        }
        context := ExtendContext(snaps, i, ctx, seed, context.value);
      }
      assert snaps[..|snaps|] == snaps;
      return if context.Ok? then Ok(ModelContext(Join(context.value.system), context.value.tools))
        else Err(context.error);
    }

    /** What one extension adds to a turn besides its model context. */
    method AppendTurn(s: Snapshot, ctx: Ctx, part: Part) returns (r: Result<Part>)
      requires Valid()
      modifies this`enabledGlobal, this`sessionOverrides
      ensures Valid()
      ensures if RestThrows(world, ctx, s) then r.Err? && r.error.ContributorFailed?
              else r.Ok? && Grown(world, ctx, part, s, r.value)
    {
      if !s.enabled {
        return Ok(part.(disabledIds := part.disabledIds + [s.loaded.id]));
      }
      var user := AppendUserPrompts(s.loaded.userPrompts, ctx, part.user);
      if user.Err? {
        return Err(user.error);
      }
      var emissions := AppendReminders(s.loaded.reminders, ctx, part.emissions);
      if emissions.Err? {
        return Err(emissions.error);
      }
      var hooks := AppendHooks(s.loaded, ctx, part.hooks);
      forall event: HookName ensures event in EVENTS {
        EventListed(event);
      }
      return Ok(Part(user.value, emissions.value, hooks, part.enabledIds + [s.loaded.id], part.disabledIds));
    }

    /** Depends on the enablement at the call alone, whatever is changed while it awaits. */
    method AssembleTurn(ctx: Ctx, seed: seq<Tool>, seedPrompt: string) returns (r: Result<Turn>)
      requires Valid()
      modifies this`enabledGlobal, this`sessionOverrides
      ensures Valid()
      ensures if state == Ready then IsTurn(world, old(Snapshots(ctx)), ctx, seed, seedPrompt, r)
        else r == Err(NotReady)
    {
      if state != Ready {
        return Err(NotReady);
      }
      var snaps := Snapshots(ctx);
      var context := StartContext(snaps, ctx, seed);
      var part := Part(NonEmpty(seedPrompt), [], map[], [], []);
      for i := 0 to |snaps|
        invariant Valid()
        invariant context.Ok? ==> ContextSoFar(world, snaps[..i], ctx, seed, context.value)
        invariant context.Err? ==> Explained(world, snaps, ctx, seed, context.error)
        invariant context.Ok? ==>
          Assembled(world, snaps[..i], ctx, seedPrompt, part) && !SomeRestThrows(world, ctx, snaps[..i])
      {
        if context.Err? {
          return Err(context.error);
        }
        context := ExtendContext(snaps, i, ctx, seed, context.value);
        if context.Ok? {
          var grown := AppendTurn(snaps[i], ctx, part);
          SnapsStep(world, snaps, i, ctx);
          if grown.Err? {
            return Err(grown.error);
          }
          AssembledStep(world, snaps, i, ctx, seedPrompt, part, grown.value);
          part := grown.value;
        }
      }
      assert snaps[..|snaps|] == snaps;
      if context.Err? {
        return Err(context.error);
      }
      return Ok(Turn(ModelContext(Join(context.value.system), context.value.tools), Join(part.user),
                     SortDown(part.emissions, Priority), part.hooks, part.enabledIds, part.disabledIds));
    }
  }

  datatype Context = Context(tools: seq<Tool>, system: seq<string>)

  ghost predicate ContextSoFar(world: World, snaps: seq<Snapshot>, ctx: Ctx, seed: seq<Tool>, context: Context) {
    && DistinctNames(context.tools)
    && context.tools == seed + Collect(snaps, ToolsOf(world, ctx))
    && context.system == Collect(snaps, SystemOf(world, ctx))
    && !SomeContextThrows(world, ctx, snaps)
  }

  ghost predicate Explained(world: World, snaps: seq<Snapshot>, ctx: Ctx, seed: seq<Tool>, error: Error) {
    Explains(error, !DistinctNames(seed + Collect(snaps, ToolsOf(world, ctx))), SomeContextThrows(world, ctx, snaps))
  }

  lemma ThrowsStep<T>(handles: seq<Handle>, i: nat, ctx: Ctx, f: (Handle, Ctx) -> Outcome<T>)
    requires i < |handles|
    ensures AnyThrows(handles[..i + 1], ctx, f) <==> AnyThrows(handles[..i], ctx, f) || f(handles[i], ctx).Throws?
    ensures f(handles[i], ctx).Throws? ==> AnyThrows(handles, ctx, f)
  {
    assert handles[..i + 1] == handles[..i] + [handles[i]];
    if f(handles[i], ctx).Throws? {
      assert handles[i] in handles[..i + 1] && handles[i] in handles;
    }
  }

  lemma SnapsStep(world: World, snaps: seq<Snapshot>, i: nat, ctx: Ctx)
    requires i < |snaps|
    ensures SomeContextThrows(world, ctx, snaps[..i + 1]) <==>
      SomeContextThrows(world, ctx, snaps[..i]) || ContextThrows(world, ctx, snaps[i])
    ensures SomeRestThrows(world, ctx, snaps[..i + 1]) <==>
      SomeRestThrows(world, ctx, snaps[..i]) || RestThrows(world, ctx, snaps[i])
    ensures ContextThrows(world, ctx, snaps[i]) ==> SomeContextThrows(world, ctx, snaps)
    ensures RestThrows(world, ctx, snaps[i]) ==> SomeRestThrows(world, ctx, snaps)
  {
    assert snaps[..i + 1] == snaps[..i] + [snaps[i]];
    assert snaps[i] in snaps[..i + 1] && snaps[i] in snaps;
  }

  /** The rest of a turn while it is being assembled. */
  datatype Part = Part(user: seq<string>, emissions: seq<Emission>, hooks: map<HookName, seq<Wrapped>>,
                       enabledIds: seq<string>, disabledIds: seq<string>)

  function HandlersIn(hooks: map<HookName, seq<Wrapped>>, event: HookName): seq<Wrapped> {
    if event in hooks then hooks[event] else []
  }

  ghost predicate Grown(world: World, ctx: Ctx, part: Part, s: Snapshot, r: Part) {
    && r.user == part.user + UserOf(world, ctx)(s)
    && r.emissions == part.emissions + EmissionsOf(world, ctx)(s)
    && (forall event :: HandlersIn(r.hooks, event) == HandlersIn(part.hooks, event) + HooksOf(ctx, event)(s))
    && r.enabledIds == part.enabledIds + IdIf(true)(s)
    && r.disabledIds == part.disabledIds + IdIf(false)(s)
  }

  ghost predicate Assembled(world: World, snaps: seq<Snapshot>, ctx: Ctx, seedPrompt: string, part: Part) {
    && part.user == NonEmpty(seedPrompt) + Collect(snaps, UserOf(world, ctx))
    && part.emissions == Collect(snaps, EmissionsOf(world, ctx))
    && (forall event :: HandlersIn(part.hooks, event) == Collect(snaps, HooksOf(ctx, event)))
    && part.enabledIds == Collect(snaps, IdIf(true))
    && part.disabledIds == Collect(snaps, IdIf(false))
  }

  lemma HooksStep(snaps: seq<Snapshot>, i: nat, ctx: Ctx, hooks: map<HookName, seq<Wrapped>>,
                  grown: map<HookName, seq<Wrapped>>)
    requires i < |snaps| && forall event :: HandlersIn(hooks, event) == Collect(snaps[..i], HooksOf(ctx, event))
    requires forall event :: HandlersIn(grown, event) == HandlersIn(hooks, event) + HooksOf(ctx, event)(snaps[i])
    ensures forall event :: HandlersIn(grown, event) == Collect(snaps[..i + 1], HooksOf(ctx, event))
  {
    forall event ensures HandlersIn(grown, event) == Collect(snaps[..i + 1], HooksOf(ctx, event)) {
      CollectSnoc(snaps, i, HooksOf(ctx, event));
    }
  }

  lemma AssembledStep(world: World, snaps: seq<Snapshot>, i: nat, ctx: Ctx, seedPrompt: string, part: Part, grown: Part)
    requires i < |snaps| && Assembled(world, snaps[..i], ctx, seedPrompt, part)
    requires Grown(world, ctx, part, snaps[i], grown)
    ensures Assembled(world, snaps[..i + 1], ctx, seedPrompt, grown)
  {
    assert grown.user == NonEmpty(seedPrompt) + Collect(snaps[..i + 1], UserOf(world, ctx)) by {
      CollectMore(NonEmpty(seedPrompt), snaps, i, UserOf(world, ctx), part.user);
    }
    assert grown.emissions == Collect(snaps[..i + 1], EmissionsOf(world, ctx)) by {
      CollectSnoc(snaps, i, EmissionsOf(world, ctx));
    }
    assert grown.enabledIds == Collect(snaps[..i + 1], IdIf(true)) by {
      CollectSnoc(snaps, i, IdIf(true));
    }
    assert grown.disabledIds == Collect(snaps[..i + 1], IdIf(false)) by {
      CollectSnoc(snaps, i, IdIf(false));
    }
    HooksStep(snaps, i, ctx, part.hooks, grown.hooks);
  }

  const EVENTS := [TurnStart, TurnEnd, HistoryChanged, BeforeLlmCall, LlmCallPrepared, AfterLlmCall, BeforeToolCall,
                   AfterToolCall, StepEnd]

  /** The handlers of the listed events have been added. */
  ghost predicate Merged(loaded: Loaded, ctx: Ctx, hooks: map<HookName, seq<Wrapped>>, r: map<HookName, seq<Wrapped>>,
                         done: seq<HookName>) {
    forall event :: HandlersIn(r, event) == HandlersIn(hooks, event) + Added(loaded, ctx, event, done)
  }

  function Added(loaded: Loaded, ctx: Ctx, event: HookName, done: seq<HookName>): seq<Wrapped> {
    if event in done then Collect(HandlersOf(loaded, event), Wraps(ctx, event)) else []
  }

  lemma AddedStep(loaded: Loaded, ctx: Ctx, e: HookName, done: seq<HookName>, event: HookName)
    requires event !in done
    ensures e != event ==> Added(loaded, ctx, e, done + [event]) == Added(loaded, ctx, e, done)
    ensures Added(loaded, ctx, event, done) == []
    ensures Added(loaded, ctx, event, done + [event]) == Collect(HandlersOf(loaded, event), Wraps(ctx, event))
  {
  }

  lemma MergedAt(loaded: Loaded, ctx: Ctx, before: seq<Wrapped>, was: seq<Wrapped>, now: seq<Wrapped>,
                 done: seq<HookName>, event: HookName, e: HookName)
    requires was == before + Added(loaded, ctx, e, done) && event !in done
    requires now == if e == event then was + Collect(HandlersOf(loaded, event), Wraps(ctx, event)) else was
    ensures now == before + Added(loaded, ctx, e, done + [event])
  {
    AddedStep(loaded, ctx, e, done, event);
  }

  lemma MergedStep(loaded: Loaded, ctx: Ctx, hooks: map<HookName, seq<Wrapped>>, r: map<HookName, seq<Wrapped>>,
                   t: map<HookName, seq<Wrapped>>, done: seq<HookName>, event: HookName)
    requires Merged(loaded, ctx, hooks, r, done) && event !in done
    requires HandlersIn(t, event) == HandlersIn(r, event) + Collect(HandlersOf(loaded, event), Wraps(ctx, event))
    requires forall e | e != event :: HandlersIn(t, e) == HandlersIn(r, e)
    ensures Merged(loaded, ctx, hooks, t, done + [event])
  {
    forall e ensures HandlersIn(t, e) == HandlersIn(hooks, e) + Added(loaded, ctx, e, done + [event]) {
      MergedAt(loaded, ctx, HandlersIn(hooks, e), HandlersIn(r, e), HandlersIn(t, e), done, event, e);
    }
  }

  method AppendHook(source: seq<Handle>, ctx: Ctx, hooks: map<HookName, seq<Wrapped>>, event: HookName)
    returns (r: map<HookName, seq<Wrapped>>)
    ensures HandlersIn(r, event) == HandlersIn(hooks, event) + Collect(source, Wraps(ctx, event))
    ensures forall e | e != event :: HandlersIn(r, e) == HandlersIn(hooks, e)
  {
    if source == [] {
      return hooks;
    }
    WrapAll(source, ctx, event);
    return hooks[event := HandlersIn(hooks, event) +
      seq(|source|, k requires 0 <= k < |source| => Wrap(ctx, event, source[k]))];
  }

  /** The handlers of the first `i` events have been added. */
  ghost predicate MergedUpTo(events: seq<HookName>, loaded: Loaded, ctx: Ctx, hooks: map<HookName, seq<Wrapped>>,
                             r: map<HookName, seq<Wrapped>>, i: nat) {
    i <= |events| && Merged(loaded, ctx, hooks, r, events[..i])
  }

  method AppendHookAt(events: seq<HookName>, loaded: Loaded, ctx: Ctx, ghost hooks: map<HookName, seq<Wrapped>>,
                      r: map<HookName, seq<Wrapped>>, i: nat)
    returns (t: map<HookName, seq<Wrapped>>)
    requires i < |events| && MergedUpTo(events, loaded, ctx, hooks, r, i) && events[i] !in events[..i]
    ensures MergedUpTo(events, loaded, ctx, hooks, t, i + 1)
  {
    var event := events[i];
    t := AppendHook(HandlersOf(loaded, event), ctx, r, event);
    MergedStep(loaded, ctx, hooks, r, t, events[..i], event);
    assert events[..i + 1] == events[..i] + [event];
  }

  lemma NothingMerged(events: seq<HookName>, loaded: Loaded, ctx: Ctx, hooks: map<HookName, seq<Wrapped>>)
    ensures MergedUpTo(events, loaded, ctx, hooks, hooks, 0)
  {
  }

  lemma AllMerged(events: seq<HookName>, loaded: Loaded, ctx: Ctx, hooks: map<HookName, seq<Wrapped>>,
                  r: map<HookName, seq<Wrapped>>)
    requires MergedUpTo(events, loaded, ctx, hooks, r, |events|)
    ensures Merged(loaded, ctx, hooks, r, events)
  {
    assert events[..|events|] == events;
  }

  /** Every handler of an extension, bound to the turn's context, after those of the extensions before it. */
  method AppendHooks(loaded: Loaded, ctx: Ctx, hooks: map<HookName, seq<Wrapped>>)
    returns (r: map<HookName, seq<Wrapped>>)
    ensures Merged(loaded, ctx, hooks, r, EVENTS)
  {
    r := hooks;
    NothingMerged(EVENTS, loaded, ctx, hooks);
    for i := 0 to |EVENTS|
      invariant MergedUpTo(EVENTS, loaded, ctx, hooks, r, i)
    {
      EventsDistinct(i);
      r := AppendHookAt(EVENTS, loaded, ctx, hooks, r, i);
    }
    AllMerged(EVENTS, loaded, ctx, hooks, r);
  }

  lemma EventsDistinct(i: nat)
    requires i < |EVENTS|
    ensures EVENTS[i] !in EVENTS[..i]
  {
  }

  lemma EventListed(event: HookName)
    ensures event in EVENTS
  {
    match event
    case TurnStart => assert EVENTS[0] == event;
    case TurnEnd => assert EVENTS[1] == event;
    case HistoryChanged => assert EVENTS[2] == event;
    case BeforeLlmCall => assert EVENTS[3] == event;
    case LlmCallPrepared => assert EVENTS[4] == event;
    case AfterLlmCall => assert EVENTS[5] == event;
    case BeforeToolCall => assert EVENTS[6] == event;
    case AfterToolCall => assert EVENTS[7] == event;
    case StepEnd => assert EVENTS[8] == event;
  }

  lemma {:induction false} WrapAll(source: seq<Handle>, ctx: Ctx, event: HookName)
    ensures Collect(source, Wraps(ctx, event)) ==
      seq(|source|, k requires 0 <= k < |source| => Wrap(ctx, event, source[k]))
    decreases |source|
  {
    if source != [] {
      WrapAll(source[..|source| - 1], ctx, event);
    }
  }

  /** The tools of one contribution, each under a name of its own. */
  method AppendCatalog(catalog: seq<Tool>, tools: seq<Tool>) returns (r: Result<seq<Tool>>)
    requires DistinctNames(tools)
    ensures if DistinctNames(tools + catalog) then r == Ok(tools + catalog) else r.Err? && r.error.DuplicateTool?
  {
    var appended := tools;
    var toolNames := Names(tools);
    for i := 0 to |catalog|
      invariant appended == tools + catalog[..i] && DistinctNames(appended) && toolNames == Names(appended)
    {
      if catalog[i].name in toolNames {
        var t :| t in appended && t.name == catalog[i].name;
        var j :| 0 <= j < |appended| && appended[j] == t;
        assert (tools + catalog)[j] == t && (tools + catalog)[|tools| + i] == catalog[i];
        return Err(DuplicateTool(catalog[i].name));
      }
      toolNames := toolNames + {catalog[i].name};
      appended := appended + [catalog[i]];
      assert catalog[..i + 1] == catalog[..i] + [catalog[i]];
    }
    assert catalog[..|catalog|] == catalog;
    return Ok(appended);
  }

  lemma NamesOfPart<T>(seed: seq<Tool>, s: seq<T>, i: nat, f: T -> seq<Tool>)
    requires i <= |s| && !DistinctNames(seed + Collect(s[..i], f))
    ensures !DistinctNames(seed + Collect(s, f))
  {
    CollectPrefix(s, i, f);
    if DistinctNames(seed + Collect(s, f)) {
      PrefixNames(seed + Collect(s[..i], f), seed + Collect(s, f));
    }
  }

  function Amend(extensions: seq<Loaded>, r: Registration): seq<Loaded>
    requires extensions != []
  {
    extensions[|extensions| - 1 := Contribute(extensions[|extensions| - 1], r)]
  }

  function Load(world: World, e: R.Extension): Loaded {
    ContributeAll(NothingLoaded(e.id), if world.init(e).Some? then world.init(e).value else [])
  }

  function LoadAll(world: World, list: seq<R.Extension>): (r: seq<Loaded>)
    ensures |r| == |list| && forall i | 0 <= i < |r| :: r[i] == Load(world, list[i])
  {
    seq(|list|, i requires 0 <= i < |list| => Load(world, list[i]))
  }

  /** The list is loaded without an error. */
  ghost predicate Loadable(world: World, list: seq<R.Extension>) {
    R.DistinctIds(list) && forall e | e in list :: world.init(e).Some?
  }

  lemma LoadableStep(world: World, list: seq<R.Extension>, i: nat)
    requires i < |list| && Loadable(world, list[..i])
    ensures Loadable(world, list[..i + 1]) <==> !R.HasId(list[..i], list[i].id) && world.init(list[i]).Some?
    ensures R.HasId(list[..i], list[i].id) ==> !R.DistinctIds(list)
    ensures world.init(list[i]).None? ==> !Loadable(world, list)
  {
    assert list[..i + 1] == list[..i] + [list[i]];
    if R.HasId(list[..i], list[i].id) {
      var e :| e in list[..i] && e.id == list[i].id;
      var j :| 0 <= j < i && list[j] == e;
    } else {
      forall j | 0 <= j < i ensures list[j].id != list[i].id {
        assert list[j] in list[..i];
      }
    }
  }

  lemma LoadAllSnoc(world: World, list: seq<R.Extension>, i: nat)
    requires i < |list|
    ensures LoadAll(world, list[..i + 1]) == LoadAll(world, list[..i]) + [Load(world, list[i])]
  {
  }

  lemma LoadedIds(world: World, list: seq<R.Extension>)
    ensures forall id :: R.HasId(list, id) <==> exists l :: l in LoadAll(world, list) && l.id == id
  {
    forall id | R.HasId(list, id) ensures exists l :: l in LoadAll(world, list) && l.id == id {
      var e :| e in list && e.id == id;
      var i :| 0 <= i < |list| && list[i] == e;
      assert LoadAll(world, list)[i].id == e.id;
    }
  }

  /** The entry point: what resolution lets through has distinct ids, so a duplicate is never found while loading. */
  method CreateAgentRuntime(world: World, base: seq<R.Extension>, additions: seq<R.Extension>,
                            overlays: map<string, R.Overlay>, profile: Option<string>)
    returns (r: Result<Registry>)
    ensures r.Ok? ==> fresh(r.value) && r.value.Valid() && r.value.state == Ready && r.value.world == world
    ensures r.Ok? && R.HasOverlay(overlays, profile) ==>
      r.value.extensions == LoadAll(world, R.Final(base, additions, overlays[profile.value]))
    ensures r.Ok? && !R.HasOverlay(overlays, profile) ==> r.value.extensions == LoadAll(world, base)
    ensures r.Err? ==> r.error.Unresolved? || r.error.InitFailed?
  {
    var resolved := R.ResolveExtensions(base, additions, overlays, profile);
    if resolved.Err? {
      return Err(Unresolved(resolved.error));
    }
    var registry := new Registry(world);
    var loaded := registry.InitExtensions(resolved.value);
    if loaded.Err? {
      return Err(loaded.error);
    }
    return Ok(registry);
  }

  // ---- What an assembly guarantees ----

  /**
   From one snapshot the turn and the model context agree: a turn has the tools, all under names of their own, and the
   system prompt of the model context, and there is one whenever there is a model context and nothing else throws.
   */
  lemma TurnAndModelContextAgree(world: World, snaps: seq<Snapshot>, ctx: Ctx, seed: seq<Tool>, seedPrompt: string,
                                 c: Result<ModelContext>, t: Result<Turn>)
    requires IsContext(world, snaps, ctx, seed, c) && IsTurn(world, snaps, ctx, seed, seedPrompt, t)
    ensures t.Ok? <==> c.Ok? && !SomeRestThrows(world, ctx, snaps)
    ensures t.Ok? ==> t.value.context == c.value && DistinctNames(c.value.tools)
  {
  }

  function IsEnabled(): Snapshot -> bool {
    (s: Snapshot) => s.enabled
  }

  /** Disabled extensions contribute nothing; the enabled ones keep their load order. */
  lemma {:induction false} DisabledAreSkipped<U>(snaps: seq<Snapshot>, f: Snapshot -> seq<U>)
    requires forall s | s in snaps && !s.enabled :: f(s) == []
    ensures Collect(Filter(snaps, IsEnabled()), f) == Collect(snaps, f)
    decreases |snaps|
  {
    if snaps != [] {
      var n := |snaps| - 1;
      DisabledAreSkipped(snaps[..n], f);
      FilterSnoc(snaps, n, IsEnabled());
      assert snaps[..n + 1] == snaps;
      var before := Filter(snaps[..n], IsEnabled());
      if snaps[n].enabled {
        assert (before + [snaps[n]])[..|before|] == before;
      } else {
        assert before + [] == before;
      }
    }
  }

  lemma DisabledDoNotThrow(world: World, ctx: Ctx, snaps: seq<Snapshot>)
    ensures SomeContextThrows(world, ctx, Filter(snaps, IsEnabled())) == SomeContextThrows(world, ctx, snaps)
    ensures SomeRestThrows(world, ctx, Filter(snaps, IsEnabled())) == SomeRestThrows(world, ctx, snaps)
  {
    var enabled := Filter(snaps, IsEnabled());
    FilterMembers(snaps, IsEnabled());
    if s :| s in snaps && ContextThrows(world, ctx, s) {
      assert s in enabled;
    }
    if s :| s in snaps && RestThrows(world, ctx, s) {
      assert s in enabled;
    }
  }

  /** A turn, and whether there is one, depends on the enabled extensions alone. */
  lemma TurnOfEnabledOnly(world: World, snaps: seq<Snapshot>, ctx: Ctx, seed: seq<Tool>, seedPrompt: string,
                          t: Result<Turn>, u: Result<Turn>)
    requires IsTurn(world, snaps, ctx, seed, seedPrompt, t)
    requires IsTurn(world, Filter(snaps, IsEnabled()), ctx, seed, seedPrompt, u)
    ensures t.Ok? <==> u.Ok?
    ensures t.Ok? ==> t.value.context == u.value.context && t.value.userPrompt == u.value.userPrompt
    ensures t.Ok? ==> t.value.reminders == u.value.reminders && t.value.enabledIds == u.value.enabledIds
    ensures t.Ok? ==> forall event :: HandlersIn(t.value.hooks, event) == HandlersIn(u.value.hooks, event)
  {
    DisabledDoNotThrow(world, ctx, snaps);
    DisabledAreSkipped(snaps, ToolsOf(world, ctx));
    DisabledAreSkipped(snaps, SystemOf(world, ctx));
    DisabledAreSkipped(snaps, UserOf(world, ctx));
    DisabledAreSkipped(snaps, EmissionsOf(world, ctx));
    DisabledAreSkipped(snaps, IdIf(true));
    forall event
      ensures Collect(Filter(snaps, IsEnabled()), HooksOf(ctx, event)) == Collect(snaps, HooksOf(ctx, event))
    {
      DisabledAreSkipped(snaps, HooksOf(ctx, event));
    }
  }

  /** Reminders come by descending priority, equals in the order they were emitted; no other list does. */
  lemma ReminderOrder(world: World, snaps: seq<Snapshot>, ctx: Ctx, seed: seq<Tool>, seedPrompt: string,
                      t: Result<Turn>, list: seq<Emission>)
    requires IsTurn(world, snaps, ctx, seed, seedPrompt, t) && t.Ok?
    ensures var emitted := Collect(snaps, EmissionsOf(world, ctx));
      (Descending(list, Priority) && forall p: real ::
        Filter(list, OfKey(Priority, p)) == Filter(emitted, OfKey(Priority, p)))
      <==> list == t.value.reminders
  {
    var emitted := Collect(snaps, EmissionsOf(world, ctx));
    SortDescends(emitted, Priority);
    forall p: real
      ensures Filter(SortDown(emitted, Priority), OfKey(Priority, p)) == Filter(emitted, OfKey(Priority, p))
    {
      SortIsStable(emitted, Priority, p);
    }
    if Descending(list, Priority) && forall p: real ::
      Filter(list, OfKey(Priority, p)) == Filter(emitted, OfKey(Priority, p)) {
      forall p: real
        ensures Filter(list, OfKey(Priority, p)) == Filter(SortDown(emitted, Priority), OfKey(Priority, p))
      {
        assert Filter(list, OfKey(Priority, p)) == Filter(emitted, OfKey(Priority, p));
      }
      SortIsUnique(list, SortDown(emitted, Priority), Priority);
    }
  }

  // ---- What is in a turn ----

  lemma PartsAreGiven<U>(snaps: seq<Snapshot>, partsOf: Snapshot -> seq<U>, handlesOf: Snapshot -> seq<Handle>,
                         gives: Handle -> seq<U>, x: U)
    requires forall s :: partsOf(s) == if s.enabled then Collect(handlesOf(s), gives) else []
    ensures x in Collect(snaps, partsOf) <==>
      exists s, h :: s in snaps && s.enabled && h in handlesOf(s) && x in gives(h)
  {
    CollectMembers(snaps, partsOf, x);
    forall s: Snapshot ensures x in Collect(handlesOf(s), gives) <==> exists h | h in handlesOf(s) :: x in gives(h) {
      CollectMembers(handlesOf(s), gives, x);
    }
    if s, h :| s in snaps && s.enabled && h in handlesOf(s) && x in gives(h) {
      assert x in partsOf(s);
    }
  }

  predicate GivesTool(world: World, ctx: Ctx, s: Snapshot, h: Handle, tool: Tool) {
    s.enabled && h in s.loaded.tools && world.tools(h, ctx).Returns? && tool in world.tools(h, ctx).value
  }

  predicate GivesReminder(world: World, ctx: Ctx, s: Snapshot, h: Handle, e: Emission) {
    s.enabled && h in s.loaded.reminders && world.reminder(h, ctx) == Returns(Some(e.reminder)) && e.provider == h
  }

  /** The tools of a turn are those it was given and those that the contributors of enabled extensions return. */
  lemma ToolsOfTurn(world: World, snaps: seq<Snapshot>, ctx: Ctx, seed: seq<Tool>, seedPrompt: string, t: Result<Turn>,
                    tool: Tool)
    requires IsTurn(world, snaps, ctx, seed, seedPrompt, t) && t.Ok?
    ensures tool in t.value.context.tools <==>
      tool in seed || exists s, h :: s in snaps && GivesTool(world, ctx, s, h, tool)
  {
    var toolsOf := (s: Snapshot) => s.loaded.tools;
    PartsAreGiven(snaps, ToolsOf(world, ctx), toolsOf, Resolves(world, ctx), tool);
    if s, h :| s in snaps && s.enabled && h in toolsOf(s) && tool in Resolves(world, ctx)(h) {
      assert GivesTool(world, ctx, s, h, tool);
    }
    if s, h :| s in snaps && GivesTool(world, ctx, s, h, tool) {
      assert h in toolsOf(s) && tool in Resolves(world, ctx)(h);
    }
  }

  lemma RemindersAreGiven(world: World, snaps: seq<Snapshot>, ctx: Ctx, e: Emission)
    ensures e in Collect(snaps, EmissionsOf(world, ctx)) <==>
      exists s, h :: s in snaps && GivesReminder(world, ctx, s, h, e)
  {
    var remindersOf := (s: Snapshot) => s.loaded.reminders;
    forall h ensures e in Emits(world, ctx)(h) <==>
      world.reminder(h, ctx) == Returns(Some(e.reminder)) && e.provider == h
    {
    }
    PartsAreGiven(snaps, EmissionsOf(world, ctx), remindersOf, Emits(world, ctx), e);
    if s, h :| s in snaps && s.enabled && h in remindersOf(s) && e in Emits(world, ctx)(h) {
      assert GivesReminder(world, ctx, s, h, e);
    }
    if s, h :| s in snaps && GivesReminder(world, ctx, s, h, e) {
      assert h in remindersOf(s) && e in Emits(world, ctx)(h);
    }
  }

  /** The reminders of a turn are those that the providers of enabled extensions return. */
  lemma RemindersOfTurn(world: World, snaps: seq<Snapshot>, ctx: Ctx, seed: seq<Tool>, seedPrompt: string,
                        t: Result<Turn>, e: Emission)
    requires IsTurn(world, snaps, ctx, seed, seedPrompt, t) && t.Ok?
    ensures e in t.value.reminders <==> exists s, h :: s in snaps && GivesReminder(world, ctx, s, h, e)
  {
    SortMembers(Collect(snaps, EmissionsOf(world, ctx)), Priority);
    RemindersAreGiven(world, snaps, ctx, e);
  }

  predicate HasHandler(s: Snapshot, event: HookName, h: Handle) {
    s.enabled && event in s.loaded.hooks && h in s.loaded.hooks[event]
  }

  lemma HooksAreGiven(snaps: seq<Snapshot>, ctx: Ctx, event: HookName, w: Wrapped)
    ensures w in Collect(snaps, HooksOf(ctx, event)) <==>
      && (exists s :: s in snaps && HasHandler(s, event, w.handler))
      && w.bound == if event == TurnStart || event == TurnEnd then None else Some(ctx)
  {
    var handlersOf := (s: Snapshot) => HandlersOf(s.loaded, event);
    PartsAreGiven(snaps, HooksOf(ctx, event), handlersOf, Wraps(ctx, event), w);
    if s, h :| s in snaps && s.enabled && h in handlersOf(s) && w in Wraps(ctx, event)(h) {
      WrapIs(ctx, event, h, w);
      assert HasHandler(s, event, w.handler);
    }
    if s :| s in snaps && HasHandler(s, event, w.handler) {
      WrapIs(ctx, event, w.handler, w);
      assert w.handler in handlersOf(s);
    }
  }

  lemma WrapIs(ctx: Ctx, event: HookName, h: Handle, w: Wrapped)
    ensures w in Wraps(ctx, event)(h) <==>
      w.handler == h && w.bound == if event == TurnStart || event == TurnEnd then None else Some(ctx)
  {
  }

  /** The hooks of a turn are the handlers of enabled extensions, all but those of its start and end bound to it. */
  lemma HooksOfTurn(world: World, snaps: seq<Snapshot>, ctx: Ctx, seed: seq<Tool>, seedPrompt: string, t: Result<Turn>,
                    event: HookName, w: Wrapped)
    requires IsTurn(world, snaps, ctx, seed, seedPrompt, t) && t.Ok?
    ensures w in HandlersIn(t.value.hooks, event) <==>
      && (exists s :: s in snaps && HasHandler(s, event, w.handler))
      && w.bound == if event == TurnStart || event == TurnEnd then None else Some(ctx)
  {
    HooksAreGiven(snaps, ctx, event, w);
  }

  /** Of two reminders the more urgent one comes first; one without a priority is as urgent as one of priority 0. */
  lemma UrgentRemindersFirst(world: World, snaps: seq<Snapshot>, ctx: Ctx, seed: seq<Tool>, seedPrompt: string,
                             t: Result<Turn>, i: nat, j: nat)
    requires IsTurn(world, snaps, ctx, seed, seedPrompt, t) && t.Ok? && i < j < |t.value.reminders|
    ensures var first, second := t.value.reminders[i].reminder.priority, t.value.reminders[j].reminder.priority;
      && (first.Some? && second.Some? ==> first.value >= second.value)
      && (first.Some? && second.None? ==> first.value >= 0.0) && (first.None? && second.Some? ==> 0.0 >= second.value)
  {
    SortDescends(Collect(snaps, EmissionsOf(world, ctx)), Priority);
  }

  predicate IsSplit(snaps: seq<Snapshot>, enabled: bool, id: string) {
    exists s :: s in snaps && s.enabled == enabled && s.loaded.id == id
  }

  /** A turn names the extensions that were enabled for it, and those that were not. */
  lemma IdsOfTurn(world: World, snaps: seq<Snapshot>, ctx: Ctx, seed: seq<Tool>, seedPrompt: string, t: Result<Turn>,
                  id: string)
    requires IsTurn(world, snaps, ctx, seed, seedPrompt, t) && t.Ok?
    ensures id in t.value.enabledIds <==> IsSplit(snaps, true, id)
    ensures id in t.value.disabledIds <==> IsSplit(snaps, false, id)
  {
    SplitIds(snaps, true, id);
    SplitIds(snaps, false, id);
  }

  lemma SplitIds(snaps: seq<Snapshot>, enabled: bool, id: string)
    ensures id in Collect(snaps, IdIf(enabled)) <==> IsSplit(snaps, enabled, id)
  {
    CollectMembers(snaps, IdIf(enabled), id);
  }

  /** What a turn asks of the contributors of an extension. */
  predicate Answers(world: World, ctx: Ctx, loaded: Loaded) {
    && (forall h | h in loaded.tools :: world.tools(h, ctx).Returns?)
    && (forall h | h in loaded.systemPrompts :: world.systemPrompt(h, ctx).Returns?)
    && (forall h | h in loaded.userPrompts :: world.userPrompt(h, ctx).Returns?)
    && (forall h | h in loaded.reminders :: world.reminder(h, ctx).Returns?)
  }

  /** There is a turn exactly when every contributor of an enabled extension answers and no tool name comes twice. */
  lemma TurnExistsIff(world: World, snaps: seq<Snapshot>, ctx: Ctx, seed: seq<Tool>, seedPrompt: string,
                      t: Result<Turn>)
    requires IsTurn(world, snaps, ctx, seed, seedPrompt, t)
    ensures t.Ok? <==>
      && DistinctNames(seed + Collect(snaps, ToolsOf(world, ctx)))
      && forall s | s in snaps && s.enabled :: Answers(world, ctx, s.loaded)
  {
    forall s | s in snaps && s.enabled
      ensures Answers(world, ctx, s.loaded) <==> !ContextThrows(world, ctx, s) && !RestThrows(world, ctx, s)
    {
      AnswersIff(world, ctx, s);
    }
  }

  lemma AnswersIff(world: World, ctx: Ctx, s: Snapshot)
    requires s.enabled
    ensures Answers(world, ctx, s.loaded) <==> !ContextThrows(world, ctx, s) && !RestThrows(world, ctx, s)
  {
  }

  // ---- The prompts of a turn ----

  const BLANK_LINE := "\n\n"

  /** The text holds `part` between blank lines, its beginning and its end. */
  ghost predicate HoldsParagraph(text: string, part: string) {
    exists before, after :: IsBetween(text, before, part, after)
  }

  predicate IsBetween(text: string, before: string, part: string, after: string) {
    && text == before + part + after
    && (before == "" || (|before| >= 2 && before[|before| - 2..] == BLANK_LINE)) && (after == "" || BLANK_LINE <= after)
  }

  /** A joined text up to its next part, and from the one before. */
  function Lead(parts: seq<string>): string {
    if parts == [] then "" else Join(parts) + BLANK_LINE
  }

  function Trail(parts: seq<string>): string {
    if parts == [] then "" else BLANK_LINE + Join(parts)
  }

  lemma Assoc(a: string, b: string, c: string)
    ensures (a + b) + c == a + (b + c)
  {
  }

  lemma Regroup(first: string, gap: string, lead: string, part: string, trail: string)
    ensures first + (gap + (lead + part + trail)) == (first + (gap + lead)) + part + trail
  {
  }

  lemma JoinFirst(parts: seq<string>)
    requires parts != []
    ensures Join(parts) == parts[0] + Trail(parts[1..])
  {
    if |parts| == 1 {
      assert parts[1..] == [] && parts[0] + "" == parts[0];
    } else {
      Assoc(parts[0], BLANK_LINE, Join(parts[1..]));
    }
  }

  lemma LeadCons(first: string, rest: seq<string>)
    ensures Lead([first] + rest) == first + (BLANK_LINE + Lead(rest))
  {
    assert ([first] + rest)[1..] == rest;
    JoinFirst([first] + rest);
    if rest == [] {
      assert first + "" == first && BLANK_LINE + "" == BLANK_LINE;
    } else {
      Assoc(first, Trail(rest), BLANK_LINE);
      Assoc(BLANK_LINE, Join(rest), BLANK_LINE);
    }
  }

  /** A joined text holds each of its parts, in order. */
  lemma {:induction false} JoinSplits(parts: seq<string>, i: nat)
    requires i < |parts|
    ensures Join(parts) == Lead(parts[..i]) + parts[i] + Trail(parts[i + 1..])
    decreases |parts|
  {
    JoinFirst(parts);
    if i == 0 {
      assert parts[..0] == [] && "" + parts[0] == parts[0];
    } else {
      var rest := parts[1..];
      assert parts[..i] == [parts[0]] + rest[..i - 1] && rest[i..] == parts[i + 1..];
      JoinSplits(rest, i - 1);
      LeadCons(parts[0], rest[..i - 1]);
      Regroup(parts[0], BLANK_LINE, Lead(rest[..i - 1]), parts[i], Trail(parts[i + 1..]));
    }
  }

  lemma JoinHolds(parts: seq<string>, part: string)
    requires part in parts
    ensures HoldsParagraph(Join(parts), part)
  {
    var i :| 0 <= i < |parts| && parts[i] == part;
    JoinSplits(parts, i);
    assert IsBetween(Join(parts), Lead(parts[..i]), part, Trail(parts[i + 1..]));
  }

  lemma JoinBegins(parts: seq<string>)
    requires parts != []
    ensures parts[0] <= Join(parts)
  {
    JoinSplits(parts, 0);
  }

  predicate GivesSystemPrompt(world: World, ctx: Ctx, s: Snapshot, h: Handle, prompt: string) {
    s.enabled && h in s.loaded.systemPrompts && world.systemPrompt(h, ctx) == Returns(prompt) && prompt != ""
  }

  predicate GivesUserPrompt(world: World, ctx: Ctx, s: Snapshot, h: Handle, prompt: string) {
    s.enabled && h in s.loaded.userPrompts && world.userPrompt(h, ctx) == Returns(prompt) && prompt != ""
  }

  /** The parts of the system prompt are the prompts that contributors of enabled extensions return, none empty. */
  lemma SystemPromptPartsIff(world: World, snaps: seq<Snapshot>, ctx: Ctx, prompt: string)
    ensures prompt in Collect(snaps, SystemOf(world, ctx)) <==>
      exists s, h :: s in snaps && GivesSystemPrompt(world, ctx, s, h, prompt)
  {
    var promptsOf := (s: Snapshot) => s.loaded.systemPrompts;
    PartsAreGiven(snaps, SystemOf(world, ctx), promptsOf, SystemPrompts(world, ctx), prompt);
    if s, h :| s in snaps && s.enabled && h in promptsOf(s) && prompt in SystemPrompts(world, ctx)(h) {
      SystemPromptIs(world, ctx, h, prompt);
      assert GivesSystemPrompt(world, ctx, s, h, prompt);
    }
    if s, h :| s in snaps && GivesSystemPrompt(world, ctx, s, h, prompt) {
      SystemPromptIs(world, ctx, h, prompt);
      assert h in promptsOf(s);
    }
  }

  lemma SystemPromptIs(world: World, ctx: Ctx, h: Handle, prompt: string)
    ensures prompt in SystemPrompts(world, ctx)(h) <==> world.systemPrompt(h, ctx) == Returns(prompt) && prompt != ""
  {
  }

  /** Every prompt that a contributor of an enabled extension returns is a paragraph of the system prompt. */
  lemma SystemPromptHoldsAll(world: World, snaps: seq<Snapshot>, ctx: Ctx, seed: seq<Tool>, r: Result<ModelContext>,
                             s: Snapshot, h: Handle, prompt: string)
    requires IsContext(world, snaps, ctx, seed, r) && r.Ok?
    requires s in snaps && GivesSystemPrompt(world, ctx, s, h, prompt)
    ensures HoldsParagraph(r.value.systemPrompt, prompt)
  {
    SystemPromptPartsIff(world, snaps, ctx, prompt);
    JoinHolds(Collect(snaps, SystemOf(world, ctx)), prompt);
  }

  /** Every such prompt is a paragraph of the user prompt, which begins with the prompt it was given. */
  lemma UserPromptHoldsAll(world: World, snaps: seq<Snapshot>, ctx: Ctx, seed: seq<Tool>, seedPrompt: string,
                           t: Result<Turn>, s: Snapshot, h: Handle, prompt: string)
    requires IsTurn(world, snaps, ctx, seed, seedPrompt, t) && t.Ok?
    requires s in snaps && GivesUserPrompt(world, ctx, s, h, prompt)
    ensures HoldsParagraph(t.value.userPrompt, prompt) && seedPrompt <= t.value.userPrompt
  {
    var promptsOf := (s: Snapshot) => s.loaded.userPrompts;
    PartsAreGiven(snaps, UserOf(world, ctx), promptsOf, UserPrompts(world, ctx), prompt);
    assert h in promptsOf(s) && prompt in UserPrompts(world, ctx)(h);
    var parts := NonEmpty(seedPrompt) + Collect(snaps, UserOf(world, ctx));
    JoinHolds(parts, prompt);
    if seedPrompt != "" {
      JoinBegins(parts);
    }
  }

  // ---- What an init registers ----

  function ToolIn(): Registration -> seq<Handle> {
    (r: Registration) => if r.RegisterTool? then [r.handle] else []
  }

  function SystemPromptIn(): Registration -> seq<Handle> {
    (r: Registration) => if r.ContributeSystemPrompt? then [r.handle] else []
  }

  function UserPromptIn(): Registration -> seq<Handle> {
    (r: Registration) => if r.ContributeUserPrompt? then [r.handle] else []
  }

  function ReminderIn(): Registration -> seq<Handle> {
    (r: Registration) => if r.RegisterReminder? then [r.handle] else []
  }

  function HandlerIn(event: HookName): Registration -> seq<Handle> {
    (r: Registration) => if r.On? && r.event == event then [r.handle] else []
  }

  lemma {:induction false} RegistrationsCollect(loaded: Loaded, rs: seq<Registration>, kept: Loaded -> seq<Handle>,
                                                added: Registration -> seq<Handle>)
    requires forall l, r :: kept(Contribute(l, r)) == kept(l) + added(r)
    ensures kept(ContributeAll(loaded, rs)) == kept(loaded) + Collect(rs, added)
    decreases |rs|
  {
    if rs != [] {
      RegistrationsCollect(Contribute(loaded, rs[0]), rs[1..], kept, added);
      CollectFirst(rs, added);
    }
  }

  lemma HandlersRegistered(loaded: Loaded, rs: seq<Registration>, event: HookName)
    ensures HandlersOf(ContributeAll(loaded, rs), event) == HandlersOf(loaded, event) + Collect(rs, HandlerIn(event))
  {
    var handlers := (l: Loaded) => HandlersOf(l, event);
    forall l, r ensures handlers(Contribute(l, r)) == handlers(l) + HandlerIn(event)(r) {
    }
    RegistrationsCollect(loaded, rs, handlers, HandlerIn(event));
  }

  lemma PromptsRegistered(loaded: Loaded, rs: seq<Registration>)
    ensures ContributeAll(loaded, rs).systemPrompts == loaded.systemPrompts + Collect(rs, SystemPromptIn())
    ensures ContributeAll(loaded, rs).userPrompts == loaded.userPrompts + Collect(rs, UserPromptIn())
  {
    var system, user := (l: Loaded) => l.systemPrompts, (l: Loaded) => l.userPrompts;
    forall l, r ensures system(Contribute(l, r)) == system(l) + SystemPromptIn()(r) {
    }
    forall l, r ensures user(Contribute(l, r)) == user(l) + UserPromptIn()(r) {
    }
    RegistrationsCollect(loaded, rs, system, SystemPromptIn());
    RegistrationsCollect(loaded, rs, user, UserPromptIn());
  }

  lemma ToolsRegistered(loaded: Loaded, rs: seq<Registration>)
    ensures ContributeAll(loaded, rs).tools == loaded.tools + Collect(rs, ToolIn())
    ensures ContributeAll(loaded, rs).reminders == loaded.reminders + Collect(rs, ReminderIn())
  {
    var tools, reminders := (l: Loaded) => l.tools, (l: Loaded) => l.reminders;
    forall l, r ensures tools(Contribute(l, r)) == tools(l) + ToolIn()(r) {
    }
    forall l, r ensures reminders(Contribute(l, r)) == reminders(l) + ReminderIn()(r) {
    }
    RegistrationsCollect(loaded, rs, tools, ToolIn());
    RegistrationsCollect(loaded, rs, reminders, ReminderIn());
  }

  /** An extension has what its init registered, of each kind and for each event in the order of registration. */
  lemma RegisteredInOrder(loaded: Loaded, rs: seq<Registration>, event: HookName)
    ensures var r := ContributeAll(loaded, rs);
      && r.tools == loaded.tools + Collect(rs, ToolIn())
      && r.systemPrompts == loaded.systemPrompts + Collect(rs, SystemPromptIn())
      && r.userPrompts == loaded.userPrompts + Collect(rs, UserPromptIn())
      && r.reminders == loaded.reminders + Collect(rs, ReminderIn())
      && HandlersOf(r, event) == HandlersOf(loaded, event) + Collect(rs, HandlerIn(event))
  {
    ToolsRegistered(loaded, rs);
    PromptsRegistered(loaded, rs);
    HandlersRegistered(loaded, rs, event);
  }

  /** A loaded extension has its own id and exactly what its init registered. */
  lemma LoadedAsRegistered(world: World, e: R.Extension, registrations: seq<Registration>, event: HookName)
    requires world.init(e) == Some(registrations)
    ensures var loaded := Load(world, e);
      && loaded.id == e.id && loaded.tools == Collect(registrations, ToolIn())
      && loaded.systemPrompts == Collect(registrations, SystemPromptIn())
      && loaded.userPrompts == Collect(registrations, UserPromptIn())
      && loaded.reminders == Collect(registrations, ReminderIn())
      && HandlersOf(loaded, event) == Collect(registrations, HandlerIn(event))
  {
    RegisteredInOrder(NothingLoaded(e.id), registrations, event);
  }
}
