/**
 * The lifecycle-hook mixin of the Tortoise iteration (app/tortoise_lifecycle.py):
 * which hooks run for a save or delete signal, how a watched field is found to
 * have changed against a previous snapshot, and what the decorators record.
 * Python attribute access is modelled on a map from attribute names to values.
 */
module Lifecycle {
  import opened Wrappers
  import opened Text

  /** An attribute value: None, a plain value, or a related model instance. */
  datatype Value =
    | NoneV
    | Scalar(v: int)
    | Obj(model: string, pk: Option<int>, attrs: map<string, Value>)

  /** A model instance, seen through its attributes. */
  type Instance = map<string, Value>

  /** `getattr(obj, name, None)`. */
  function GetAttr(inst: Instance, name: string): Value {
    if name in inst then inst[name] else NoneV
  }

  /** Python truthiness: None and 0 are false, model instances are true. */
  predicate Truthy(v: Value) {
    match v
    case NoneV => false
    case Scalar(x) => x != 0
    case Obj(_, _, _) => true
  }

  /** Python `==`: model instances compare by model class and primary key. */
  predicate PyEq(a: Value, b: Value) {
    match (a, b)
    case (NoneV, NoneV) => true
    case (Scalar(x), Scalar(y)) => x == y
    case (Obj(m1, pk1, _), Obj(m2, pk2, _)) => m1 == m2 && pk1 == pk2
    case _ => false
  }

  /** `getattr(fk, "pk", None)`. */
  function PkOf(v: Value): Option<int> {
    if v.Obj? then v.pk else None
  }

  /** `getattr(fk, related, None)`. */
  function Related(v: Value, name: string): Value {
    if v.Obj? && name in v.attrs then v.attrs[name] else NoneV
  }

  /**
   * `_field_has_changed`: a plain name compares the attribute; a dotted name
   * `fk.rel` is changed when the foreign key changed, or when both foreign keys
   * are present with the same primary key and their `rel` attributes differ.
   */
  function FieldHasChanged(current: Instance, field: string, previous: Option<Instance>): (r: bool)
    ensures previous.None? ==> !r
    ensures previous.Some? && '.' !in field ==>
      (r <==> !PyEq(GetAttr(current, field), GetAttr(previous.value, field)))
    ensures previous.Some? && '.' in field ==>
      var (fk, rel) := SplitFirst(field, '.').value;
      var (cur, prev) := (GetAttr(current, fk), GetAttr(previous.value, fk));
      (r <==> (!PyEq(cur, prev) || (Truthy(cur) && Truthy(prev) && PkOf(cur) == PkOf(prev) && !PyEq(Related(cur, rel), Related(prev, rel)))))
    decreases if '.' in field then 1 else 0
  {
    if previous.None? then false
    else match SplitFirst(field, '.')
      case None =>
        !PyEq(GetAttr(current, field), GetAttr(previous.value, field))
      case Some((fk, rel)) =>
        if FieldHasChanged(current, fk, previous) then true
        else
          var cur := GetAttr(current, fk);
          var prev := GetAttr(previous.value, fk);
          if Truthy(cur) && Truthy(prev) && PkOf(cur) == PkOf(prev) then
            !PyEq(Related(cur, rel), Related(prev, rel))
          else false
  }

  /** The attribute a field path starts from: the name itself, or the foreign key of a dotted name. */
  function HeadAttribute(field: string): string {
    match SplitFirst(field, '.')
    case None => field
    case Some((fk, _)) => fk
  }

  /** Against an identical snapshot no field has changed. */
  lemma UnchangedAgainstItself(inst: Instance, field: string)
    ensures !FieldHasChanged(inst, field, Some(inst))
  {
  }

  /** Change detection does not depend on which side is the snapshot. */
  lemma ChangeIsSymmetric(a: Instance, b: Instance, field: string)
    ensures FieldHasChanged(a, field, Some(b)) == FieldHasChanged(b, field, Some(a))
  {
  }

  /** Only the attribute a field path starts from matters: edits to other attributes are invisible. */
  lemma OnlyHeadAttributeMatters(current: Instance, other: Instance, field: string, previous: Instance)
    requires GetAttr(current, HeadAttribute(field)) == GetAttr(other, HeadAttribute(field))
    ensures FieldHasChanged(current, field, Some(previous)) == FieldHasChanged(other, field, Some(previous))
  {
  }

  datatype HookKind = BeforeCreate | AfterCreate | BeforeUpdate | AfterUpdate | BeforeDelete | AfterDelete

  /**
   * The attributes the decorators put on a hook method: its kind (`_run_<kind>`),
   * `_fields_to_watch`, `_need_previous_state`, `_wants_previous_state`, and
   * `_needs_previous`, the flag `_call_update_method` actually reads.
   */
  datatype HookFlags = HookFlags(
    kind: HookKind,
    fieldsToWatch: Option<set<string>>,
    needPreviousState: bool,
    wantsPreviousState: bool,
    needsPrevious: bool)

  /** The `fields` argument of a decorator: absent, a list, or some other iterable. */
  datatype FieldsArg = NoFields | ListArg(items: seq<string>) | OtherIterable(items: seq<string>)

  predicate FieldsTruthy(fields: FieldsArg) {
    !fields.NoFields? && fields.items != []
  }

  function SetOf(items: seq<string>): (s: set<string>)
    ensures forall x :: x in s <==> x in items
  {
    set x | x in items
  }

  datatype DecoratorError = FieldsMustBeList

  /** `@before_create`, `@after_create`, `@before_delete`, `@after_delete`: only the kind flag. */
  function PlainHook(kind: HookKind): (f: HookFlags)
    requires kind != BeforeUpdate && kind != AfterUpdate
    ensures f.kind == kind && f.fieldsToWatch.None? && !f.needsPrevious
  {
    HookFlags(kind, None, false, false, false)
  }

  /** `@before_update(fields)`: watches `set(fields)` when truthy; notes a `previous` parameter. */
  function BeforeUpdateHook(fields: FieldsArg, hasPreviousParameter: bool): (f: HookFlags)
    ensures f.kind == BeforeUpdate
    ensures f.fieldsToWatch.Some? <==> FieldsTruthy(fields)
    ensures FieldsTruthy(fields) ==> f.fieldsToWatch.value == SetOf(fields.items)
    ensures f.needPreviousState == hasPreviousParameter && !f.needsPrevious
  {
    HookFlags(BeforeUpdate, if FieldsTruthy(fields) then Some(SetOf(fields.items)) else None, hasPreviousParameter, false, false)
  }

  /**
   * `@after_update(fields)`: a truthy `fields` that is not a list raises
   * ValueError; otherwise it watches `set(fields)`, and only without watched
   * fields does a `previous` parameter set `_wants_previous_state`.
   */
  function AfterUpdateHook(fields: FieldsArg, hasPreviousParameter: bool): (r: Result<HookFlags, DecoratorError>)
    ensures r.Err? <==> FieldsTruthy(fields) && !fields.ListArg?
    ensures r.Ok? ==> r.value.kind == AfterUpdate && !r.value.needsPrevious
    ensures r.Ok? ==> (r.value.fieldsToWatch.Some? <==> FieldsTruthy(fields))
    ensures r.Ok? && FieldsTruthy(fields) ==> r.value.fieldsToWatch.value == SetOf(fields.items) && !r.value.wantsPreviousState
    ensures r.Ok? && !FieldsTruthy(fields) ==> r.value.wantsPreviousState == hasPreviousParameter
  {
    if FieldsTruthy(fields) then
      if !fields.ListArg? then Err(FieldsMustBeList)
      else Ok(HookFlags(AfterUpdate, Some(SetOf(fields.items)), false, false, false))
    else Ok(HookFlags(AfterUpdate, None, false, hasPreviousParameter, false))
  }

  /** What `_call_update_method` does with one hook. */
  datatype UpdateCall = Skip | Call(withPrevious: bool)

  predicate SomeWatchedFieldChanged(watch: set<string>, instance: Instance, previous: Option<Instance>) {
    exists f :: f in watch && FieldHasChanged(instance, f, previous)
  }

  /**
   * `_call_update_method`: a hook with watched fields is skipped unless one of
   * them changed; `previous` is passed only if there is one and the hook carries
   * `_needs_previous`.
   */
  function CallUpdateMethod(hook: HookFlags, instance: Instance, previous: Option<Instance>): (r: UpdateCall)
    ensures r.Skip? <==> hook.fieldsToWatch.Some? && !SomeWatchedFieldChanged(hook.fieldsToWatch.value, instance, previous)
    ensures r.Call? ==> (r.withPrevious <==> previous.Some? && hook.needsPrevious)
  {
    if hook.fieldsToWatch.Some? && !SomeWatchedFieldChanged(hook.fieldsToWatch.value, instance, previous) then Skip
    else Call(previous.Some? && hook.needsPrevious)
  }

  /** A hook watching a single field runs exactly when that field changed. */
  lemma SingleWatch(hook: HookFlags, field: string, instance: Instance, previous: Option<Instance>)
    requires hook.fieldsToWatch == Some({field})
    ensures CallUpdateMethod(hook, instance, previous).Call? <==> FieldHasChanged(instance, field, previous)
  {
    assert SomeWatchedFieldChanged({field}, instance, previous) <==> FieldHasChanged(instance, field, previous);
  }

  /** Without a previous snapshot a hook with watched fields never runs. */
  lemma WatchedHookNeedsSnapshot(hook: HookFlags, instance: Instance)
    requires hook.fieldsToWatch.Some?
    ensures CallUpdateMethod(hook, instance, None) == Skip
  {
  }

  /**
   * No decorator sets `_needs_previous` (they set `_need_previous_state` or
   * `_wants_previous_state`), so an update hook is never handed `previous`.
   */
  lemma DecoratedHooksNeverGetPrevious(fields: FieldsArg, hasPreviousParameter: bool, instance: Instance, previous: Option<Instance>)
    ensures CallUpdateMethod(BeforeUpdateHook(fields, hasPreviousParameter), instance, previous) != Call(true)
    ensures AfterUpdateHook(fields, hasPreviousParameter).Ok? ==>
      CallUpdateMethod(AfterUpdateHook(fields, hasPreviousParameter).value, instance, previous) != Call(true)
  {
  }

  /** A Tortoise signal: pre_save (with whether pk is None), post_save (with `created`), pre/post_delete. */
  datatype Signal = PreSave(pkIsNone: bool) | PostSave(created: bool) | PreDelete | PostDelete

  /** The conditions the handlers test before calling hooks of each kind; delete hooks run with `condition=True`. */
  predicate Gate(kind: HookKind, signal: Signal) {
    match kind
    case BeforeCreate => signal.PreSave? && signal.pkIsNone
    case AfterCreate => signal.PostSave? && signal.created
    case BeforeUpdate => signal.PreSave? && !signal.pkIsNone
    case AfterUpdate => signal.PostSave? && !signal.created
    case BeforeDelete => signal.PreDelete?
    case AfterDelete => signal.PostDelete?
  }

  datatype Hook = Hook(name: string, flags: HookFlags)

  datatype Invocation = Invocation(name: string, withPrevious: bool)

  predicate IsUpdateKind(kind: HookKind) { kind == BeforeUpdate || kind == AfterUpdate }

  /** Whether one hook is invoked for a signal, and with or without `previous`. */
  function HookCall(hook: Hook, signal: Signal, instance: Instance, previous: Option<Instance>): Option<Invocation> {
    if !Gate(hook.flags.kind, signal) then None
    else if !IsUpdateKind(hook.flags.kind) then Some(Invocation(hook.name, false))
    else match CallUpdateMethod(hook.flags, instance, previous)
      case Skip => None
      case Call(withPrevious) => Some(Invocation(hook.name, withPrevious))
  }

  /** The invocations for one signal, in the order the hooks were declared. */
  function Invocations(hooks: seq<Hook>, signal: Signal, instance: Instance, previous: Option<Instance>): seq<Invocation>
  {
    if hooks == [] then []
    else
      var front := Invocations(hooks[..|hooks| - 1], signal, instance, previous);
      match HookCall(hooks[|hooks| - 1], signal, instance, previous)
      case None => front
      case Some(call) => front + [call]
  }

  /**
   * The registered handlers for one signal: each walks its hook list and calls
   * the hooks whose gate holds (update hooks through `_call_update_method`).
   */
  method RunHandlers(hooks: seq<Hook>, signal: Signal, instance: Instance, previous: Option<Instance>)
    returns (calls: seq<Invocation>)
    ensures calls == Invocations(hooks, signal, instance, previous)
  {
    calls := [];
    for i := 0 to |hooks|
      invariant calls == Invocations(hooks[..i], signal, instance, previous)
    {
      assert hooks[..i + 1][..i] == hooks[..i];
      var call := HookCall(hooks[i], signal, instance, previous);
      if call.Some? {
        calls := calls + [call.value];
      }
    }
    assert hooks[..|hooks|] == hooks;
  }

  /** A hook name is invoked exactly when some hook of that name passes its gate and, for update hooks, its field check. */
  lemma {:induction false} InvokedIff(hooks: seq<Hook>, signal: Signal, instance: Instance, previous: Option<Instance>, name: string)
    ensures (exists c :: c in Invocations(hooks, signal, instance, previous) && c.name == name) <==>
      (exists h :: h in hooks && h.name == name && HookCall(h, signal, instance, previous).Some?)
    decreases |hooks|
  {
    if hooks != [] {
      var n := |hooks| - 1;
      var last := hooks[n];
      InvokedIff(hooks[..n], signal, instance, previous, name);
      var front := Invocations(hooks[..n], signal, instance, previous);
      var tail := match HookCall(last, signal, instance, previous) case None => [] case Some(call) => [call];
      assert Invocations(hooks, signal, instance, previous) == front + tail;
      assert hooks == hooks[..n] + [last];
      assert forall c :: c in front + tail <==> c in front || c in tail;
      assert forall h :: h in hooks <==> h in hooks[..n] || h == last;
    }
  }

  /** Every invoked hook passed the gate for this signal: create and update hooks never run on the same save. */
  lemma {:induction false} InvocationsAreGated(hooks: seq<Hook>, signal: Signal, instance: Instance, previous: Option<Instance>)
    ensures forall c :: c in Invocations(hooks, signal, instance, previous) ==>
      exists h :: h in hooks && h.name == c.name && Gate(h.flags.kind, signal)
    decreases |hooks|
  {
    if hooks != [] {
      var n := |hooks| - 1;
      InvocationsAreGated(hooks[..n], signal, instance, previous);
      assert forall h :: h in hooks[..n] ==> h in hooks;
    }
  }

  /** Delete signals invoke every hook of the matching delete kind, in order, unconditionally. */
  lemma {:induction false} DeleteHooksAlwaysRun(hooks: seq<Hook>, instance: Instance, previous: Option<Instance>)
    requires forall h :: h in hooks ==> h.flags.kind == BeforeDelete
    ensures Invocations(hooks, PreDelete, instance, previous) == seq(|hooks|, i requires 0 <= i < |hooks| => Invocation(hooks[i].name, false))
    decreases |hooks|
  {
    if hooks != [] {
      var n := |hooks| - 1;
      DeleteHooksAlwaysRun(hooks[..n], instance, previous);
    }
  }

  /** Hooks watching fields are never invoked on an update save without a previous snapshot. */
  lemma {:induction false} NoSnapshotNoWatchedUpdate(hooks: seq<Hook>, instance: Instance, created: bool)
    requires forall h :: h in hooks ==> h.flags.kind == AfterUpdate && h.flags.fieldsToWatch.Some?
    ensures Invocations(hooks, PostSave(created), instance, None) == []
    decreases |hooks|
  {
    if hooks != [] {
      NoSnapshotNoWatchedUpdate(hooks[..|hooks| - 1], instance, created);
    }
  }

  // The dispatch as `_connect_to_tortoise_signals` registers it. The model
  // above is the dispatch the decorators describe; below, the handlers
  // that are actually connected, with Python's keyword binding.

  /**
   * A decorated function as `__init_subclass__` collects it from the class
   * body: the raw function, so its parameter names include `self`. No
   * parameter of a hook has a default value.
   */
  datatype RawHook = RawHook(hook: Hook, params: set<string>)

  /** The exceptions the connected handlers raise. */
  datatype PyError = TypeError | NameError

  /** One handler run: the hook bodies entered, in order, and the exception that ended it, if any. */
  datatype Run = Run(entered: seq<string>, raised: Option<PyError>)

  const Quiet := Run([], None)

  /** `method(**kwargs)` binds when the keywords are exactly the parameter names; otherwise TypeError. */
  predicate Binds(params: set<string>, kwargs: set<string>) {
    params == kwargs
  }

  /** `hooks[kind]`: the collected functions flagged `_run_<kind>`, in class-body order. */
  function OfKind(hooks: seq<RawHook>, kind: HookKind): (r: seq<RawHook>)
    ensures |r| <= |hooks|
    ensures forall i :: 0 <= i < |r| ==> r[i].hook.flags.kind == kind
  {
    if hooks == [] then []
    else (if hooks[0].hook.flags.kind == kind then [hooks[0]] else []) + OfKind(hooks[1..], kind)
  }

  function Names(hooks: seq<RawHook>): (r: seq<string>)
    ensures |r| == |hooks| && forall i :: 0 <= i < |hooks| ==> r[i] == hooks[i].hook.name
  {
    if hooks == [] then [] else [hooks[0].hook.name] + Names(hooks[1..])
  }

  /**
   * `for method in methods: await call_sync_or_async(method, **kwargs)`:
   * the hooks run in order until one does not bind, which raises TypeError.
   */
  function CallEach(hooks: seq<RawHook>, kwargs: set<string>): (r: Run)
    ensures r.raised.None? <==> forall h :: h in hooks ==> Binds(h.params, kwargs)
    ensures r.raised.None? ==> r.entered == Names(hooks)
    ensures r.raised.Some? ==> r.raised == Some(TypeError) && |r.entered| < |hooks| && r.entered == Names(hooks[..|r.entered|])
    ensures r.raised.Some? ==> !Binds(hooks[|r.entered|].params, kwargs)
  {
    if hooks == [] then Quiet
    else if !Binds(hooks[0].params, kwargs) then Run([], Some(TypeError))
    else
      var rest := CallEach(hooks[1..], kwargs);
      assert forall h :: h in hooks <==> h == hooks[0] || h in hooks[1..];
      if rest.raised.Some? then
        assert hooks[..|rest.entered| + 1] == [hooks[0]] + hooks[1..][..|rest.entered|];
        Run([hooks[0].hook.name] + rest.entered, rest.raised)
      else Run([hooks[0].hook.name] + rest.entered, rest.raised)
  }

  /**
   * Tortoise calling one connected listener with the signal's positional
   * arguments: either they bind and the listener's coroutine runs, or they do
   * not and the call itself raises TypeError.
   */
  datatype Call = Started(run: Run) | Unbound

  /** A listener connected when `hooks` is non-empty, calling them with `kwargs` when its condition holds. */
  function Connected(hooks: seq<RawHook>, when: bool, kwargs: set<string>): (r: seq<Call>)
    ensures |r| <= 1 && (r != [] <==> hooks != [])
    ensures forall call :: call in r ==> call.Started? && (!when ==> call.run == Quiet)
  {
    if hooks == [] then [] else [Started(if when then CallEach(hooks, kwargs) else Quiet)]
  }

  /** A listener connected when `hooks` is non-empty that reads the undefined `previous_states` when its condition holds. */
  function Failing(hooks: seq<RawHook>, when: bool): (r: seq<Call>)
    ensures |r| <= 1 && (r != [] <==> hooks != [])
    ensures forall call :: call in r ==> call.Started? && call.run.entered == [] && (call.run.raised.Some? <==> when)
  {
    if hooks == [] then [] else [Started(if when then Run([], Some(NameError)) else Quiet)]
  }

  /**
   * The delete listener `partial(_call_methods_if_condition, condition=True,
   * methods=...)`, connected when `hooks` is non-empty. Tortoise calls a delete
   * listener with `(sender, instance, using_db)` only, so the partial's
   * positional `update_fields` is missing and the call raises TypeError.
   */
  function DeletePartial(hooks: seq<RawHook>): (r: seq<Call>)
    ensures (r == [] <==> hooks == []) && forall call :: call in r ==> call == Unbound
  {
    if hooks == [] then [] else [Unbound]
  }

  /** The `hooks` dictionary `__init_subclass__` builds: the collected functions of each kind. */
  datatype Collected = Collected(
    beforeCreate: seq<RawHook>, afterCreate: seq<RawHook>,
    beforeUpdate: seq<RawHook>, afterUpdate: seq<RawHook>,
    beforeDelete: seq<RawHook>, afterDelete: seq<RawHook>)
  {
    /** `hooks[kind]`. */
    function Of(kind: HookKind): seq<RawHook> {
      match kind
      case BeforeCreate => beforeCreate
      case AfterCreate => afterCreate
      case BeforeUpdate => beforeUpdate
      case AfterUpdate => afterUpdate
      case BeforeDelete => beforeDelete
      case AfterDelete => afterDelete
    }
  }

  /** Collection from the class body: each kind's list is `OfKind` of the declared hooks. */
  function Collect(hooks: seq<RawHook>): (c: Collected)
    ensures forall kind: HookKind :: c.Of(kind) == OfKind(hooks, kind)
  {
    Collected(
      OfKind(hooks, BeforeCreate), OfKind(hooks, AfterCreate),
      OfKind(hooks, BeforeUpdate), OfKind(hooks, AfterUpdate),
      OfKind(hooks, BeforeDelete), OfKind(hooks, AfterDelete))
  }

  /**
   * The listeners connected to one signal, in registration order, and what
   * calling each does:
   *  - pre_save: `before_create_handler` (hooks get `instance=` when pk is None),
   *    `before_update_handler` (hooks get `previous=` only, no field check, when
   *    pk is set) and `call_before_update_methods` (NameError on the undefined
   *    `previous_states` before its first hook when pk is set);
   *  - post_save: `after_create_handler` (`instance=` when created),
   *    `after_update_handler` (`instance=`, no field check, when not created) and
   *    `call_after_update_methods` (NameError when not created);
   *  - pre_delete and post_delete: the `_call_methods_if_condition` partial,
   *    whose call does not bind, then `call_before_delete_methods` or
   *    `call_after_delete_methods` when the class also has update hooks.
   */
  function Listeners(c: Collected, signal: Signal): (r: seq<Call>)
    ensures |r| <= 3
    ensures (signal.PreSave? || signal.PostSave?) ==> Unbound !in r
    ensures forall kind :: (signal.PreDelete? || signal.PostDelete?) && Gate(kind, signal) ==>
      (r == [] <==> c.Of(kind) == []) && (r != [] ==> r[0] == Unbound)
  {
    var updates := c.beforeUpdate != [] || c.afterUpdate != [];
    match signal
    case PreSave(pkIsNone) =>
      Connected(c.beforeCreate, pkIsNone, {"instance"})
      + Connected(c.beforeUpdate, !pkIsNone, {"previous"})
      + Failing(c.beforeUpdate, !pkIsNone)
    case PostSave(created) =>
      Connected(c.afterCreate, created, {"instance"})
      + Connected(c.afterUpdate, !created, {"instance"})
      + Failing(c.afterUpdate, !created)
    case PreDelete =>
      DeletePartial(c.beforeDelete)
      + (if updates then Connected(c.beforeDelete, true, {"instance"}) else [])
    case PostDelete =>
      DeletePartial(c.afterDelete)
      + (if updates then Connected(c.afterDelete, true, {"instance"}) else [])
  }

  /**
   * Tortoise's signal dispatch: `listener(...)` for every listener in
   * registration order, then `asyncio.gather` over the coroutines. A call that
   * raises ends the signal before any coroutine has run; otherwise every
   * coroutine runs, and the first exception in registration order is raised.
   */
  function Dispatch(calls: seq<Call>): (r: Run)
    ensures Unbound in calls ==> r == Run([], Some(TypeError))
    ensures Unbound !in calls ==> (r.raised.None? <==> forall i :: 0 <= i < |calls| ==> calls[i].run.raised.None?)
    ensures Unbound !in calls && r.raised.Some? ==>
      exists i :: 0 <= i < |calls| && r.raised == calls[i].run.raised && forall j :: 0 <= j < i ==> calls[j].run.raised.None?
    ensures Unbound !in calls ==> forall n :: n in r.entered <==> exists i :: 0 <= i < |calls| && n in calls[i].run.entered
    ensures (forall i :: 0 <= i < |calls| ==> calls[i].Unbound? || calls[i].run.entered == []) ==> r.entered == []
  {
    if calls == [] then Quiet
    else if Unbound in calls then Run([], Some(TypeError))
    else
      var rest := Dispatch(calls[1..]);
      assert forall i :: 1 <= i < |calls| ==> calls[i] == calls[1..][i - 1];
      var r := Run(calls[0].run.entered + rest.entered, if calls[0].run.raised.Some? then calls[0].run.raised else rest.raised);
      assert r.raised.Some? && calls[0].run.raised.None? ==> exists i :: 1 <= i < |calls| && r.raised == calls[i].run.raised && forall j :: 0 <= j < i ==> calls[j].run.raised.None?;
      r
  }

  /** A save or delete of an instance whose class declares `hooks`, as the handlers are connected. */
  function SignalAsWritten(hooks: seq<RawHook>, signal: Signal): (r: Run)
    ensures Unbound in Listeners(Collect(hooks), signal) ==> r == Run([], Some(TypeError))
    ensures r.raised.None? <==> forall call :: call in Listeners(Collect(hooks), signal) ==> call.Started? && call.run.raised.None?
    ensures forall n :: n in r.entered ==> exists call :: call in Listeners(Collect(hooks), signal) && call.Started? && n in call.run.entered
  {
    var calls := Listeners(Collect(hooks), signal);
    var r := Dispatch(calls);
    assert forall call :: call in calls <==> exists i :: 0 <= i < |calls| && calls[i] == call;
    r
  }

  /** A listener over hooks that all take `self` never enters a body, and raises when it calls them. */
  lemma SelfHooksNeverBind(hooks: seq<RawHook>, when: bool, kwargs: set<string>)
    requires "self" !in kwargs
    requires forall h :: h in hooks ==> "self" in h.params
    ensures forall call :: call in Connected(hooks, when, kwargs) ==> call.run.entered == []
    ensures hooks != [] && when ==> Connected(hooks, when, kwargs) == [Started(Run([], Some(TypeError)))]
  {
    if hooks != [] {
      assert hooks[0] in hooks;
    }
  }

  /** Every hook in the list is a method taking `self`. */
  predicate Methods(hooks: seq<RawHook>) {
    forall h :: h in hooks ==> "self" in h.params
  }

  /** Over collected lists of methods, no save listener enters a body, and one over a gated kind raises. */
  lemma SaveListenersNeverRun(c: Collected, signal: Signal)
    requires signal.PreSave? || signal.PostSave?
    requires Methods(c.beforeCreate) && Methods(c.afterCreate) && Methods(c.beforeUpdate) && Methods(c.afterUpdate)
    ensures forall call :: call in Listeners(c, signal) ==> call.Started? && call.run.entered == []
    ensures forall kind :: c.Of(kind) != [] && Gate(kind, signal) ==> Started(Run([], Some(TypeError))) in Listeners(c, signal)
  {
    if signal.PreSave? {
      SelfHooksNeverBind(c.beforeCreate, signal.pkIsNone, {"instance"});
      SelfHooksNeverBind(c.beforeUpdate, !signal.pkIsNone, {"previous"});
    } else {
      SelfHooksNeverBind(c.afterCreate, signal.created, {"instance"});
      SelfHooksNeverBind(c.afterUpdate, !signal.created, {"instance"});
    }
  }

  /**
   * A delete raises TypeError and enters no hook body exactly when the class
   * has hooks of the deleted kind, whatever their parameters: the partial's
   * call fails before any coroutine runs, so the second registration is never
   * reached. Without such hooks no listener is connected.
   */
  lemma DeleteListenersRaise(c: Collected, signal: Signal, kind: HookKind)
    requires signal.PreDelete? || signal.PostDelete?
    requires Gate(kind, signal)
    ensures Dispatch(Listeners(c, signal)) == if c.Of(kind) != [] then Run([], Some(TypeError)) else Quiet
  {
    var calls := Listeners(c, signal);
    if calls != [] {
      assert calls[0] in calls;
    }
  }

  /**
   * A post_save over collected methods, with a hook of the kind `created`
   * selects, raises TypeError and enters nothing: the create or update
   * handler's first call fails before any snapshot listener can raise.
   */
  lemma PostSaveOfMethods(c: Collected, created: bool)
    requires Methods(c.afterCreate) && Methods(c.afterUpdate)
    requires if created then c.afterCreate != [] else c.afterUpdate != []
    ensures Dispatch(Listeners(c, PostSave(created))) == Run([], Some(TypeError))
  {
    SelfHooksNeverBind(c.afterCreate, created, {"instance"});
    SelfHooksNeverBind(c.afterUpdate, !created, {"instance"});
    var first := Connected(c.afterCreate, created, {"instance"});
    var second := Connected(c.afterUpdate, !created, {"instance"});
    var calls := first + second + Failing(c.afterUpdate, !created);
    assert Listeners(c, PostSave(created)) == calls;
    assert forall call :: call in calls ==> call.Started? && call.run.entered == [];
    if created {
      FirstFailure(calls, 0);
    } else {
      assert forall call :: call in first ==> call.run == Quiet;
      FirstFailure(calls, |first|);
    }
  }

  /** A dispatch that enters no body raises the exception of its first failing listener. */
  lemma FirstFailure(calls: seq<Call>, i: nat)
    requires forall call :: call in calls ==> call.Started? && call.run.entered == []
    requires i < |calls| && calls[i].run.raised.Some?
    requires forall j :: 0 <= j < i ==> calls[j].run.raised.None?
    ensures Dispatch(calls) == Run([], calls[i].run.raised)
  {
    assert forall j :: 0 <= j < |calls| ==> calls[j] in calls;
    var r := Dispatch(calls);
    var k :| 0 <= k < |calls| && r.raised == calls[k].run.raised && forall j :: 0 <= j < k ==> calls[j].run.raised.None?;
    assert k == i;
  }

  /**
   * When every hook is a method taking `self`, as decorated methods in a class
   * body are, no hook body ever runs, whatever the signal; and any signal for
   * which some hook's kind is gated raises.
   */
  lemma MethodHooksNeverRun(hooks: seq<RawHook>, signal: Signal)
    requires forall h :: h in hooks ==> "self" in h.params
    ensures SignalAsWritten(hooks, signal).entered == []
    ensures (exists h :: h in hooks && Gate(h.hook.flags.kind, signal)) ==> SignalAsWritten(hooks, signal).raised.Some?
  {
    var c := Collect(hooks);
    if signal.PreSave? || signal.PostSave? {
      forall kind: HookKind
        ensures Methods(c.Of(kind))
      {
        forall h | h in c.Of(kind) ensures "self" in h.params {
          OfKindMembers(hooks, kind, h);
        }
      }
      assert Methods(c.Of(BeforeCreate)) && Methods(c.Of(AfterCreate));
      assert Methods(c.Of(BeforeUpdate)) && Methods(c.Of(AfterUpdate));
      SaveListenersNeverRun(c, signal);
      if h :| h in hooks && Gate(h.hook.flags.kind, signal) {
        OfKindMembers(hooks, h.hook.flags.kind, h);
        assert h in c.Of(h.hook.flags.kind);
      }
    } else {
      DeleteRaises(hooks, signal);
    }
  }

  /** An update save of a class with update hooks of the gated kind always raises: TypeError or NameError. */
  lemma UpdateSaveRaises(hooks: seq<RawHook>, signal: Signal)
    requires signal == PreSave(false) || signal == PostSave(false)
    requires exists h :: h in hooks && Gate(h.hook.flags.kind, signal)
    ensures SignalAsWritten(hooks, signal).raised.Some?
  {
    var c := Collect(hooks);
    var h :| h in hooks && Gate(h.hook.flags.kind, signal);
    OfKindMembers(hooks, h.hook.flags.kind, h);
    assert h in c.Of(h.hook.flags.kind);
    assert Started(Run([], Some(NameError))) in Listeners(c, signal);
  }

  /**
   * The after-update handler calls every after-update hook that binds
   * `instance=`, watched fields or not: the field check of
   * `_call_update_method` is never reached.
   */
  lemma WatchedFieldsNotChecked(hooks: seq<RawHook>)
    requires forall h :: h in hooks ==> h.hook.flags.kind == AfterUpdate && Binds(h.params, {"instance"})
    ensures SignalAsWritten(hooks, PostSave(false)).entered == Names(hooks)
  {
    var c := Collect(hooks);
    OnlyKind(hooks, AfterUpdate);
    NoneOfKind(hooks, AfterCreate);
    assert c.afterCreate == [] && c.afterUpdate == hooks;
    if hooks != [] {
      var calls := [Started(CallEach(hooks, {"instance"})), Started(Run([], Some(NameError)))];
      assert Listeners(c, PostSave(false)) == calls;
      assert Unbound !in calls && calls[1..] == [calls[1]];
      assert Dispatch(calls[1..]).entered == [];
      assert Dispatch(calls).entered == CallEach(hooks, {"instance"}).entered;
    }
  }

  /**
   * As connected, a delete of an instance whose class declares hooks of the
   * deleted kind raises TypeError before any hook body runs, whatever the
   * hooks' parameters; a class without such hooks has no delete listener.
   */
  lemma DeleteRaises(hooks: seq<RawHook>, signal: Signal)
    requires signal.PreDelete? || signal.PostDelete?
    ensures SignalAsWritten(hooks, signal) ==
      if exists h :: h in hooks && Gate(h.hook.flags.kind, signal) then Run([], Some(TypeError)) else Quiet
  {
    var c := Collect(hooks);
    var kind := if signal.PreDelete? then BeforeDelete else AfterDelete;
    DeleteListenersRaise(c, signal, kind);
    if h :| h in hooks && Gate(h.hook.flags.kind, signal) {
      OfKindMembers(hooks, kind, h);
    } else if c.Of(kind) != [] {
      OfKindMembers(hooks, kind, c.Of(kind)[0]);
    }
  }

  /** What a connected listener enters are hooks of its list, and only when its condition holds. */
  lemma ConnectedEntered(hooks: seq<RawHook>, when: bool, kwargs: set<string>, n: string)
    requires exists call :: call in Connected(hooks, when, kwargs) && n in call.run.entered
    ensures when && exists h :: h in hooks && h.hook.name == n
  {
    var call :| call in Connected(hooks, when, kwargs) && n in call.run.entered;
    assert when && call.run == CallEach(hooks, kwargs);
    var run := call.run;
    var k := |run.entered|;
    if run.raised.None? {
      assert hooks[..k] == hooks;
    }
    var i :| 0 <= i < k && run.entered[i] == n;
    assert Names(hooks[..k])[i] == hooks[..k][i].hook.name;
    assert hooks[i] in hooks;
  }

  /**
   * As connected, every hook body a signal enters is a declared hook whose
   * kind the signal gates: the connected handlers keep the intended gates,
   * even where they skip the field check.
   */
  lemma EnteredAreGated(hooks: seq<RawHook>, signal: Signal, n: string)
    requires n in SignalAsWritten(hooks, signal).entered
    ensures exists h :: h in hooks && Gate(h.hook.flags.kind, signal) && h.hook.name == n
  {
    if signal.PreDelete? || signal.PostDelete? {
      DeleteRaises(hooks, signal);
      assert false;
    }
    var c := Collect(hooks);
    var call :| call in Listeners(c, signal) && call.Started? && n in call.run.entered;
    var kind := SaveEntered(c, signal, call, n);
    var h :| h in c.Of(kind) && h.hook.name == n;
    OfKindMembers(hooks, kind, h);
  }

  /** The hook a save listener enters belongs to a kind the save gates. */
  lemma SaveEntered(c: Collected, signal: Signal, call: Call, n: string) returns (kind: HookKind)
    requires signal.PreSave? || signal.PostSave?
    requires call in Listeners(c, signal) && call.Started? && n in call.run.entered
    ensures Gate(kind, signal) && exists h :: h in c.Of(kind) && h.hook.name == n
  {
    if signal.PreSave? {
      var a := Connected(c.beforeCreate, signal.pkIsNone, {"instance"});
      var b := Connected(c.beforeUpdate, !signal.pkIsNone, {"previous"});
      assert Listeners(c, signal) == a + b + Failing(c.beforeUpdate, !signal.pkIsNone);
      if call in a {
        ConnectedEntered(c.beforeCreate, signal.pkIsNone, {"instance"}, n);
        kind := BeforeCreate;
      } else {
        ConnectedEntered(c.beforeUpdate, !signal.pkIsNone, {"previous"}, n);
        kind := BeforeUpdate;
      }
    } else {
      var a := Connected(c.afterCreate, signal.created, {"instance"});
      var b := Connected(c.afterUpdate, !signal.created, {"instance"});
      assert Listeners(c, signal) == a + b + Failing(c.afterUpdate, !signal.created);
      if call in a {
        ConnectedEntered(c.afterCreate, signal.created, {"instance"}, n);
        kind := AfterCreate;
      } else {
        ConnectedEntered(c.afterUpdate, !signal.created, {"instance"}, n);
        kind := AfterUpdate;
      }
    }
  }

  /** `hooks[kind]` holds exactly the declared hooks of that kind. */
  lemma {:induction false} OfKindMembers(hooks: seq<RawHook>, kind: HookKind, h: RawHook)
    ensures h in OfKind(hooks, kind) <==> h in hooks && h.hook.flags.kind == kind
    decreases |hooks|
  {
    if hooks != [] {
      OfKindMembers(hooks[1..], kind, h);
      assert h in hooks <==> h == hooks[0] || h in hooks[1..];
    }
  }

  lemma {:induction false} OfKindAppend(a: seq<RawHook>, b: seq<RawHook>, kind: HookKind)
    ensures OfKind(a + b, kind) == OfKind(a, kind) + OfKind(b, kind)
    decreases |a|
  {
    if a != [] {
      assert (a + b)[0] == a[0] && (a + b)[1..] == a[1..] + b;
      OfKindAppend(a[1..], b, kind);
      var head := if a[0].hook.flags.kind == kind then [a[0]] else [];
      calc {
        OfKind(a + b, kind);
        head + OfKind(a[1..] + b, kind);
        head + (OfKind(a[1..], kind) + OfKind(b, kind));
        (head + OfKind(a[1..], kind)) + OfKind(b, kind);
        OfKind(a, kind) + OfKind(b, kind);
      }
    } else {
      assert a + b == b;
    }
  }
  lemma {:induction false} OnlyKind(hooks: seq<RawHook>, kind: HookKind)
    requires forall i :: 0 <= i < |hooks| ==> hooks[i].hook.flags.kind == kind
    ensures OfKind(hooks, kind) == hooks
    decreases |hooks|
  {
    if hooks != [] {
      assert forall i :: 0 <= i < |hooks| - 1 ==> hooks[1..][i] == hooks[i + 1];
      OnlyKind(hooks[1..], kind);
      assert OfKind(hooks, kind) == [hooks[0]] + hooks[1..];
    }
  }

  lemma {:induction false} NoneOfKind(hooks: seq<RawHook>, kind: HookKind)
    requires forall i :: 0 <= i < |hooks| ==> hooks[i].hook.flags.kind != kind
    ensures OfKind(hooks, kind) == []
    decreases |hooks|
  {
    if hooks != [] {
      assert forall i :: 0 <= i < |hooks| - 1 ==> hooks[1..][i] == hooks[i + 1];
      NoneOfKind(hooks[1..], kind);
    }
  }
}
