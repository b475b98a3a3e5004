/**
 The tasks that produce variables: loading a literal, fetching a bound variable,
 and accessing an attribute of another task's result (with `Variable.attribute`,
 which resolves the accessor, runs it and autoboxes the result).
 */
module VariableTasks {
  import opened Text
  import opened Results
  import opened Dicts
  import opened Tasks
  import opened Types

  /** Who loads a literal: the return type's own `_load`, or a link class's. */
  datatype Loader = OwnLoad | LinkLoad(linkClass: string)

  /** A `LoadVariableTask` (or `_LoadLinkTask`) before it runs. */
  datatype LoadTask = LoadTask(returnType: VarType, loader: Loader, argument: string)

  /** The bound variables of the shell, in binding order. */
  type Scope = Dict<string, Value>

  /** `LoadVariableTask.__init__`: the return type is looked up, which can fail. */
  function NewLoadTask(reg: Registry, returnType: TypeRef, loader: Loader, argument: string): (r: Result<LoadTask>)
    ensures r.Ok? <==> Lookup(reg, returnType).Ok?
    ensures r.Ok? ==> (r.value.returnType == Lookup(reg, returnType).value
      && r.value.argument == argument && r.value.loader == loader)
  {
    var t :- Lookup(reg, returnType);
    Ok(LoadTask(t, loader, argument))
  }

  /** `Variable.load_task`: a load task for the class itself, which cannot fail. */
  function ClassLoadTask(t: VarType, argument: string): (l: LoadTask)
    ensures forall reg :: NewLoadTask(reg, TypeObj(t), OwnLoad, argument) == Ok(l)
  {
    LoadTask(t, OwnLoad, argument)
  }

  function LoadTitle(l: LoadTask): Line
  {
    [Plain("Loading " + ClassName(l.returnType) + " " + l.argument)]
  }

  /**
   `LoadVariableTask.run`: the built-in String and Integer loads wrap the argument;
   any other load is done by code outside the model, described by `external`.
   */
  function LoadRun(t: Task, l: LoadTask, external: Body<PyValue>): (r: Run<PyValue>)
    ensures r.observed == [Running, r.task.status] && Finished(r.task.status)
    ensures l.loader == OwnLoad && l.returnType == StringType ==>
      r.outcome == Returned(PyVar(StringVar(l.argument, ""))) && r.task.status == Success
    ensures l.loader == OwnLoad && l.returnType == IntegerType ==>
      r.outcome == Returned(PyVar(IntegerVar(Digits(l.argument), ""))) && r.task.status == Success
    ensures !(l.loader == OwnLoad && (l.returnType == StringType || l.returnType == IntegerType)) ==>
      r.outcome == external.outcome && (r.task.status == Success <==> external.outcome.Returned?)
  {
    var builtin := if l.loader == OwnLoad then LoadBuiltin(l.returnType, l.argument) else None;
    match builtin
    case Some(v) => CoroutineRun(t, Body([], Returned(PyVar(v))))
    case None => CoroutineRun(t, external)
  }

  /** `GetVariableTask.__init__`: the variable must be bound; its type is the task's return type. */
  function GetVariableType(scope: Scope, name: string): (r: Result<VarType>)
    ensures r.Ok? <==> scope.Has(name)
    ensures r.Ok? ==> r.value == TypeOf(scope.entries[name])
    ensures r.Err? ==> r.error == KeyError(name)
  {
    if scope.Has(name) then Ok(TypeOf(scope.entries[name])) else Err(KeyError(name))
  }

  /**
   `GetVariableTask.run`: immediately Success without a refresh, returning the current
   binding (a missing binding raises after the status was set).
   */
  function GetVariableRun(t: Task, scope: Scope, name: string): (r: Run<PyValue>)
    ensures r.task.status == Success && r.observed == []
    ensures r.task.children == t.children && r.task.output == t.output
    ensures scope.Has(name) ==> r.outcome == Returned(PyVar(scope.entries[name]))
    ensures !scope.Has(name) ==> r.outcome == Failed(Raised(KeyError(name)))
  {
    var out := if scope.Has(name) then Returned(PyVar(scope.entries[name])) else Failed(Raised(KeyError(name)));
    Run(t.(status := Success), [], out)
  }

  /**
   `AttributeAccessTask.__init__`: the base's return type must exist and have the
   attribute; the task returns the attribute's declared type.
   */
  function AccessReturnType(reg: Registry, baseReturn: Option<TypeRef>, attr: string): (r: Result<VarType>)
    ensures baseReturn.None? ==> r.Err?
    ensures baseReturn.Some? && Lookup(reg, baseReturn.value).Err? ==> r == Lookup(reg, baseReturn.value)
    ensures baseReturn.Some? && Lookup(reg, baseReturn.value).Ok? ==>
      (var bt := Lookup(reg, baseReturn.value).value;
       && (AttributeOf(bt, attr).Err? ==> r == Err(AttributeOf(bt, attr).error))
       && (AttributeOf(bt, attr).Ok? ==> r == Lookup(reg, AttributeOf(bt, attr).value.returnType)))
  {
    match baseReturn
    case None => Err(AttributeError("'NoneType' object has no attribute 'startswith'"))
    case Some(ref) =>
      var bt :- Lookup(reg, ref);
      var a :- AttributeOf(bt, attr);
      Lookup(reg, a.returnType)
  }

  /**
   `List.get_item` or `List.count` bound as the attribute of a class that is not a
   list reads `self._items`, which only lists have.
   */
  function NoItems(v: Value): PyError
  {
    AttributeError("'" + PyClassName(v) + "' object has no attribute '_items'")
  }

  /** What a custom accessor did: for a `@task` accessor, the child task it ran; and its result. */
  datatype CustomCall = CustomCall(child: Task, outcome: Outcome<PyValue>)

  /**
   `Variable.attribute`: the accessor comes from the value's own type; a `@task`
   accessor runs as a child of the host, a plain one is called directly; the result is
   autoboxed and an unknown attribute raises KeyError.
   */
  function AttributeCall(v: Value, attr: string, host: Host, custom: CustomCall): (r: (Host, Outcome<PyValue>))
    ensures AttributeOf(TypeOf(v), attr).Err? ==> r.0 == host && r.1 == Failed(Raised(KeyError(attr)))
    ensures r.1.Returned? ==> !r.1.value.PyStr? && !r.1.value.PyInt?
    ensures AttributeOf(TypeOf(v), attr).Ok? && AttributeOf(TypeOf(v), attr).value.accessor.Custom? ==>
      ((AttributeOf(TypeOf(v), attr).value.accessor.isTask && host.RealHost?)
         <==> (r.0.RealHost? && r.0 != host))
    ensures host.RealHost? && r.0.RealHost? && r.0 != host ==> r.0.task.children == host.task.children + [custom.child]
    ensures AttributeOf(TypeOf(v), attr).Ok? && !AttributeOf(TypeOf(v), attr).value.accessor.Custom? ==>
      (&& r.0 == host
       && (!v.ListVar? ==> r.1 == Failed(Raised(NoItems(v))))
       && (v.ListVar? ==> r.1.Returned? || r.1 == Failed(Raised(IndexError("list index out of range")))))
  {
    match AttributeOf(TypeOf(v), attr)
    case Err(e) => (host, Failed(Raised(e)))
    case Ok(a) =>
      match a.accessor
      case Custom(_, isTask) =>
        var (h, out) := if isTask then HostSub(host, custom.child, custom.outcome) else (host, custom.outcome);
        (h, BoxOutcome(out))
      case ItemAt(k) =>
        if !v.ListVar? then (host, Failed(Raised(NoItems(v))))
        else if k < |v.items| then (host, Returned(PyVar(v.items[k])))
        else (host, Failed(Raised(IndexError("list index out of range"))))
      case Count =>
        if !v.ListVar? then (host, Failed(Raised(NoItems(v))))
        else (host, Returned(Autobox(PyInt(|v.items|))))
  }

  /** `List.__init__` never calls `Variable.__init__`, so a list has no `_tosh`. */
  const NoTosh := AttributeError("'List' object has no attribute '_tosh'")

  /**
   `Variable.attribute` as written: `_autobox` boxes a plain `int` with
   `Integer(self._tosh, result)`, and a list never has `_tosh`.  So on a list the
   `int` that `count` yields raises, while an item, already a variable, passes
   unboxed.  `AttributeCall` is the corrected call, which boxes the count.
   */
  function AttributeCallAsWritten(v: Value, attr: string, host: Host, custom: CustomCall): (r: (Host, Outcome<PyValue>))
    ensures r.1.Returned? ==> !r.1.value.PyStr? && !r.1.value.PyInt?
    ensures v.ListVar? && r.1.Returned? ==> r.1.value.PyVar? && r.1.value.v in v.items
  {
    if v.ListVar? && attr == "count" then (host, Failed(Raised(NoTosh)))
    else AttributeCall(v, attr, host, custom)
  }

  /**
   The written call differs from the corrected one on exactly one access: `count` on
   a list, which raises AttributeError `_tosh` where the corrected call yields the
   number of items as an Integer.
   */
  lemma CountAsWrittenRaises(v: Value, attr: string, host: Host, custom: CustomCall)
    ensures v.ListVar? && attr == "count" ==>
      && AttributeCallAsWritten(v, attr, host, custom) == (host, Failed(Raised(NoTosh)))
      && AttributeCall(v, attr, host, custom) == (host, Returned(PyVar(IntegerVar(Number(|v.items|), ""))))
    ensures !(v.ListVar? && attr == "count") ==> AttributeCallAsWritten(v, attr, host, custom) == AttributeCall(v, attr, host, custom)
    ensures AttributeCallAsWritten(v, attr, host, custom) != AttributeCall(v, attr, host, custom) <==> v.ListVar? && attr == "count"
  {
    if v.ListVar? && attr == "count" {
      ListCountCall(v.itemType, v.items, v.name, host, custom);
    }
  }

  function BoxOutcome(o: Outcome<PyValue>): (r: Outcome<PyValue>)
    ensures r.Returned? <==> o.Returned?
    ensures r.Returned? ==> r.value == Autobox(o.value)
    ensures r.Failed? ==> r == o
  {
    match o
    case Returned(x) => Returned(Autobox(x))
    case Failed(e) => Failed(e)
  }

  /** On a list, the accessor comes from the list attribute table. */
  lemma ListAttributeFound(item: VarType, items: seq<Value>, name: string, attr: string)
    ensures AttributeOf(TypeOf(ListVar(item, items, name)), attr) == ListAttribute(item, attr)
  {
  }

  /** On a list, a digit key fetches that item, and one past the end fails. */
  lemma ListIndexCall(item: VarType, items: seq<Value>, name: string, attr: string, host: Host, custom: CustomCall)
    requires IsIndexKey(attr)
    ensures DigitsValue(attr) < |items| ==>
      AttributeCall(ListVar(item, items, name), attr, host, custom) == (host, Returned(PyVar(items[DigitsValue(attr)])))
    ensures DigitsValue(attr) >= |items| ==> AttributeCall(ListVar(item, items, name), attr, host, custom).1.Failed?
  {
    ListAttributeFound(item, items, name, attr);
  }

  /** On a list, the corrected `count` is the number of items, boxed as an Integer. */
  lemma ListCountCall(item: VarType, items: seq<Value>, name: string, host: Host, custom: CustomCall)
    ensures AttributeCall(ListVar(item, items, name), "count", host, custom)
      == (host, Returned(PyVar(IntegerVar(Number(|items|), ""))))
  {
    ListAttributeFound(item, items, name, "count");
    assert !IsIndexKey("count") by { assert !IsDigit("count"[0]); }
  }

  /**
   On a list, a digit key fetches that item and the corrected `count` its number of
   items, boxed as an Integer.
   */
  lemma ListAttributeCall(item: VarType, items: seq<Value>, name: string, attr: string, host: Host, custom: CustomCall)
    ensures IsIndexKey(attr) && DigitsValue(attr) < |items| ==>
      AttributeCall(ListVar(item, items, name), attr, host, custom) == (host, Returned(PyVar(items[DigitsValue(attr)])))
    ensures IsIndexKey(attr) && DigitsValue(attr) >= |items| ==>
      AttributeCall(ListVar(item, items, name), attr, host, custom).1.Failed?
    ensures attr == "count" ==>
      AttributeCall(ListVar(item, items, name), attr, host, custom)
        == (host, Returned(PyVar(IntegerVar(Number(|items|), ""))))
    ensures !IsIndexKey(attr) && attr != "count" ==>
      AttributeCall(ListVar(item, items, name), attr, host, custom) == (host, Failed(Raised(KeyError(attr))))
  {
    if IsIndexKey(attr) {
      ListIndexCall(item, items, name, attr, host, custom);
    } else if attr == "count" {
      ListCountCall(item, items, name, host, custom);
    } else {
      ListAttributeFound(item, items, name, attr);
    }
  }

  /**
   Corrected, a list's `count` yields an Integer and its table entry declares
   Integer.  As written, the entry declares String, and the call raises
   AttributeError `_tosh` before any value exists.
   */
  lemma CountDeclaredType(item: VarType, items: seq<Value>, name: string, host: Host, custom: CustomCall)
    ensures var counted := IntegerVar(Number(|items|), "");
      && AttributeCall(ListVar(item, items, name), "count", host, custom).1 == Returned(PyVar(counted))
      && ListAttribute(item, "count") == Ok(Attribute(TypeObj(TypeOf(counted)), Count))
    ensures && ListAttributeAsWritten(item, "count") == Ok(Attribute(TypeObj(StringType), Count))
      && AttributeCallAsWritten(ListVar(item, items, name), "count", host, custom).1 == Failed(Raised(NoTosh))
  {
    assert !IsIndexKey("count") by { assert !IsDigit("count"[0]); }
    ListCountCall(item, items, name, host, custom);
    assert TypeOf(IntegerVar(Number(|items|), "")) == IntegerType;
  }

  /** A command's plain result has no `attribute` method to call. */
  function NoAttributeMethod(x: PyValue): PyError
  {
    AttributeError("'" + PyTypeName(x) + "' object has no attribute 'attribute'")
  }

  function AccessTitle(baseType: VarType, attr: string): Line
  {
    [Plain("Accessing " + ClassName(baseType) + "." + attr)]
  }

  /**
   `AttributeAccessTask.run`: the base task runs as the first child; a failing base
   fails the access with the same exception; otherwise the attribute is resolved on
   the base's result.
   */
  function AccessRun(t: Task, attr: string, baseChild: Task, baseOutcome: Outcome<PyValue>, custom: CustomCall)
    : (r: Run<PyValue>)
    ensures r.observed == [Running, r.task.status] && Finished(r.task.status)
    ensures |r.task.children| >= |t.children| + 1 && r.task.children[|t.children|] == baseChild
    ensures r.task.children[..|t.children|] == t.children
    ensures baseOutcome.Failed? ==> (r.outcome == baseOutcome && r.task.status == Error
      && r.task.children == t.children + [baseChild])
    ensures r.task.status == Success <==> r.outcome.Returned?
    ensures baseOutcome.Returned? && !baseOutcome.value.PyVar? ==>
      (r.outcome == Failed(Raised(NoAttributeMethod(baseOutcome.value))) && r.task.children == t.children + [baseChild])
    ensures baseOutcome.Returned? && baseOutcome.value.PyVar? ==>
      var call := AttributeCall(baseOutcome.value.v, attr, RealHost(t.(children := t.children + [baseChild])), custom);
      r.outcome == call.1 && r.task.children == call.0.task.children
  {
    var withBase := t.(children := t.children + [baseChild]);
    match baseOutcome
    case Failed(e) => Finish(withBase, Body([], baseOutcome), Error, t.output, baseOutcome)
    case Returned(x) =>
      if !x.PyVar? then
        var out: Outcome<PyValue> := Failed(Raised(NoAttributeMethod(x)));
        Finish(withBase, Body([], out), Error, t.output, out)
      else
        var (h, out) := AttributeCall(x.v, attr, RealHost(withBase), custom);
        var after := h.task;
        Finish(after, Body([], out), if out.Returned? then Success else Error, t.output, out)
  }

  /**
   An access on a command that returned a plain `str` or `None` fails in the
   attribute call, naming that Python type.
   */
  lemma AccessOnPlainResult(t: Task, attr: string, baseChild: Task, s: string, custom: CustomCall)
    ensures AccessRun(t, attr, baseChild, Returned(PyStr(s)), custom).outcome
      == Failed(Raised(AttributeError("'" + "str" + "' object has no attribute 'attribute'")))
    ensures AccessRun(t, attr, baseChild, Returned(PyNone), custom).outcome
      == Failed(Raised(AttributeError("'" + "NoneType" + "' object has no attribute 'attribute'")))
  {
  }

  /**
   On a list whose items all have its item type, whatever the corrected call yields
   has the type the access task declared when it was built: the corrected `count`
   entry is what makes this hold.
   */
  lemma ListAccessTyped(reg: Registry, item: VarType, items: seq<Value>, name: string, attr: string, host: Host, custom: CustomCall)
    requires forall i :: 0 <= i < |items| ==> TypeOf(items[i]) == item
    ensures var out := AttributeCall(ListVar(item, items, name), attr, host, custom).1;
      out.Returned? ==>
        && AccessReturnType(reg, Some(TypeObj(ListOf(item))), attr).Ok?
        && out.value.PyVar?
        && TypeOf(out.value.v) == AccessReturnType(reg, Some(TypeObj(ListOf(item))), attr).value
  {
    ListAttributeCall(item, items, name, attr, host, custom);
    ListAttributeFound(item, items, name, attr);
    if attr == "count" {
      assert !IsIndexKey("count") by { assert !IsDigit("count"[0]); }
    }
  }
}
