/**
 * GridEventMap: an EL map bean that turns a grid's selection into model updates. Two `get`
 * calls collect a key expression and a value expression; `put(gridId, keyValue)` then writes
 * the selected key to the key expression and the store element whose key column matches it
 * to the value expression.
 */
module GridEvents {
  import opened Values
  import opened Faces
  import opened ConverterBase

  /** The fields of a GridEventMap. */
  datatype GridState = GridState(
    keyExpression: Option<string>, isSetKey: bool, valueExpression: Option<string>, isSetValue: bool)

  /** get(o): the key expression first, then the value expression, then null for every later call. */
  function GridGet(s: GridState, o: Value): (r: (Result<Reply<Value>>, GridState))
    ensures r.0.Err? <==> !(s.isSetKey && s.isSetValue) && !(o == Null || o.Str?)
    ensures r.0.Err? ==> r.1 == s && r.0.error.kind == ClassCastException
    ensures !s.isSetKey && r.0.Ok? ==>
      r.0.value == Itself && r.1.isSetKey && !r.1.isSetValue == !s.isSetValue
      && r.1.keyExpression == (if o.Str? then Some(o.s) else None) && r.1.valueExpression == s.valueExpression
    ensures s.isSetKey && !s.isSetValue && r.0.Ok? ==>
      r.0.value == Itself && r.1.isSetKey && r.1.isSetValue
      && r.1.valueExpression == (if o.Str? then Some(o.s) else None) && r.1.keyExpression == s.keyExpression
    ensures s.isSetKey && s.isSetValue ==> r == (Ok(Returned(Null)), s)
  {
    if !s.isSetKey then
      match CastString(o)
      case Err(e) => (Err(e), s)
      case Ok(k) => (Ok(Itself), s.(keyExpression := k, isSetKey := true))
    else if !s.isSetValue then
      match CastString(o)
      case Err(e) => (Err(e), s)
      case Ok(v) => (Ok(Itself), s.(valueExpression := v, isSetValue := true))
    else (Ok(Returned(Null)), s)
  }

  /** A fresh map given two expressions holds both, and then answers null without changing. */
  lemma TwoExpressions(k: string, v: string, later: Value)
    ensures var g1 := GridGet(GridState(None, false, None, false), Str(k));
      var g2 := GridGet(g1.1, Str(v));
      && g1.0 == Ok(Itself) && g2.0 == Ok(Itself)
      && g2.1 == GridState(Some(k), true, Some(v), true)
      && GridGet(g2.1, later) == (Ok(Returned(Null)), g2.1)
  {
  }

  /** What put changes: values written to top-level expressions, the item binding, the messages, the structure cache. */
  datatype GridWorld = GridWorld(
    globals: map<string, Value>, current: Value, messages: seq<Option<string>>, cache: map<string, seq<Field>>)

  /** The element matches when its key column's value exists and its text is the selected key. */
  predicate RowMatches(heap: seq<Bean>, itemPath: string, keyPath: string, keyValue: string, item: Value) {
    var id := Read(heap, item, itemPath, keyPath);
    id != Null && JavaText(id) == keyValue
  }

  /** The index of the first element from `from` on that matches, if any. */
  function FindRow(heap: seq<Bean>, items: seq<Value>, itemPath: string, keyPath: string, keyValue: string, from: nat)
    : (r: Option<nat>)
    ensures r.Some? ==> from <= r.value < |items| && RowMatches(heap, itemPath, keyPath, keyValue, items[r.value])
    decreases |items| - from
  {
    if from >= |items| then None
    else if RowMatches(heap, itemPath, keyPath, keyValue, items[from]) then Some(from)
    else FindRow(heap, items, itemPath, keyPath, keyValue, from + 1)
  }

  /** FindRow finds the first match, and nothing exactly when no element matches. */
  lemma {:induction false} FindRowIsFirst(heap: seq<Bean>, items: seq<Value>, itemPath: string, keyPath: string, keyValue: string, from: nat)
    ensures FindRow(heap, items, itemPath, keyPath, keyValue, from).None? <==>
      forall j :: from <= j < |items| ==> !RowMatches(heap, itemPath, keyPath, keyValue, items[j])
    ensures FindRow(heap, items, itemPath, keyPath, keyValue, from).Some? ==>
      forall j :: from <= j < FindRow(heap, items, itemPath, keyPath, keyValue, from).value ==>
        !RowMatches(heap, itemPath, keyPath, keyValue, items[j])
    decreases |items| - from
  {
    if from < |items| && !RowMatches(heap, itemPath, keyPath, keyValue, items[from]) {
      FindRowIsFirst(heap, items, itemPath, keyPath, keyValue, from + 1);
    }
  }

  /** The item expression of the store: "#{" + String.valueOf(var) + "}". */
  function StoreItemPath(attrs: map<string, Value>): string {
    "#{" + JavaText(if "var" in attrs then attrs["var"] else Null) + "}"
  }

  /** valueBindingStrings.get(attributes.get("key")): the binding of the store's key column, if any. */
  function KeyBinding(attrs: map<string, Value>, leaves: SMap<string>): (r: Option<string>)
    ensures r.Some? <==> "key" in attrs && attrs["key"].Str? && attrs["key"].s in leaves.vals
  {
    if "key" in attrs && attrs["key"].Str? && attrs["key"].s in leaves.vals then Some(leaves.vals[attrs["key"].s])
    else None
  }

  /** The text of the exception when no element matches. */
  function NoRowMessage(keyValue: string, valueExpression: string, keyPath: string): string {
    "Cannot set value " + keyValue + " into expression " + valueExpression + "(" + keyPath + ")"
  }

  /**
   * The value part of put: the store's items searched for the selected key, the matching
   * element written to the value expression and the item binding cleared.
   */
  function SetSelected(heap: seq<Bean>, attrs: map<string, Value>, leaves: SMap<string>, keyValue: string,
                       valueExpression: string, w: GridWorld): (r: (Result<()>, GridWorld))
    ensures r.1.messages == w.messages && r.1.cache == w.cache
    ensures r.0.Err? ==> r.1.globals == w.globals
    ensures forall k :: k in w.globals && k != "#{" + valueExpression + "}" ==> k in r.1.globals && r.1.globals[k] == w.globals[k]
    ensures r.1.globals.Keys <= w.globals.Keys + {"#{" + valueExpression + "}"}
  {
    var list := if "items" in attrs then attrs["items"] else Null;
    if list == Null then (Ok(()), w)
    else if !list.Lst? then (Fail(ClassCastException, "cannot be cast to java.util.List"), w)
    else
      var itemPath := StoreItemPath(attrs);
      match KeyBinding(attrs, leaves)
      case None => (Fail(NullPointerException, "expression is null"), w)
      case Some(keyPath) =>
        var items := list.items;
        match FindRow(heap, items, itemPath, keyPath, keyValue, 0)
        case Some(i) =>
          (Ok(()), w.(globals := w.globals["#{" + valueExpression + "}" := items[i]], current := Null))
        case None =>
          (Fail(IllegalArgumentException, NoRowMessage(keyValue, valueExpression, keyPath)),
           w.(current := if |items| == 0 then w.current else items[|items| - 1]))
  }

  /** The maps put passes to tokenizeStructure: value bindings and children, the rest null. */
  function PutSinks(): Sinks {
    Sinks(Some(EmptyMap()), Some(EmptyMap()), None, None, None)
  }

  /**
   * The try block of put: the structure attribute of the store, tokenized into value
   * bindings, with the structure cache after it. A missing store component is a
   * NullPointerException, whose message is null.
   */
  function ReadStructure(env: Env, store: Option<map<string, Value>>, cache: map<string, seq<Field>>)
    : (r: (Result<SMap<string>>, map<string, seq<Field>>))
    ensures store.None? ==> r == (Err(Exception(NullPointerException, None)), cache)
    ensures store.Some? && StringAttr(store.value, "structure").Err? ==> r == (Err(StringAttr(store.value, "structure").error), cache)
    ensures store.Some? && StringAttr(store.value, "structure").Ok? ==>
      var t := TokenizeSpec(env, cache, StringAttr(store.value, "structure").value, PutSinks());
      r.1 == t.cache && (r.0.Err? <==> t.step.err.Some?)
      && (r.0.Err? ==> r.0.error == t.step.err.value)
      && (r.0.Ok? ==> r.0.value == t.step.out.leaves.value)
  {
    if store.None? then (Err(Exception(NullPointerException, None)), cache)
    else
      match StringAttr(store.value, "structure")
      case Err(e) => (Err(e), cache)
      case Ok(structure) =>
        var t := TokenizeSpec(env, cache, structure, PutSinks());
        if t.step.err.Some? then (Err(t.step.err.value), t.cache) else (Ok(t.step.out.leaves.value), t.cache)
  }

  /** put(gridId, keyValue), with `store` the attributes of the store component found for the grid. */
  function GridPut(env: Env, heap: seq<Bean>, s: GridState, store: Option<map<string, Value>>, keyValue: Value, w: GridWorld)
    : (r: (Result<()>, GridWorld))
    ensures !(keyValue.Str? && |keyValue.s| > 0) ==> r == (Ok(()), w)
    ensures |w.messages| <= |r.1.messages| <= |w.messages| + 1 && r.1.messages[..|w.messages|] == w.messages
    ensures |r.1.messages| > |w.messages| ==> r.0.Ok? && r.1.globals == w.globals && r.1.current == w.current
  {
    if !(keyValue.Str? && |keyValue.s| > 0) then (Ok(()), w)
    else
      var t := ReadStructure(env, store, w.cache);
      match t.0
      case Err(e) => (Ok(()), w.(cache := t.1, messages := w.messages + [e.message]))
      case Ok(leaves) => Update(heap, s, store.value, leaves, keyValue.s, w.(cache := t.1))
  }

  /** The part of put after the structure is read: the key expression, then the value expression. */
  function Update(heap: seq<Bean>, s: GridState, attrs: map<string, Value>, leaves: SMap<string>, keyValue: string, w: GridWorld)
    : (r: (Result<()>, GridWorld))
    ensures r.1.messages == w.messages && r.1.cache == w.cache
  {
    var w1 := w.(globals := KeyWritten(s, Str(keyValue), w.globals));
    if s.valueExpression.None? || s.valueExpression.value == "" then (Ok(()), w1)
    else SetSelected(heap, attrs, leaves, keyValue, s.valueExpression.value, w1)
  }

  /** The globals after the key part of put: keyValue written to "#{" + keyExpression + "}" when one is given. */
  function KeyWritten(s: GridState, keyValue: Value, globals: map<string, Value>): map<string, Value> {
    if s.keyExpression.Some? && s.keyExpression.value != "" then globals["#{" + s.keyExpression.value + "}" := keyValue]
    else globals
  }

  /**
   * When the structure is read, the selected key reaches the key expression, whatever happens
   * to the value part, unless the value expression is the same expression.
   */
  lemma KeyIsWrittenFirst(heap: seq<Bean>, s: GridState, attrs: map<string, Value>, leaves: SMap<string>, keyValue: string, w: GridWorld)
    requires s.keyExpression.Some? && s.keyExpression.value != "" && s.valueExpression != s.keyExpression
    ensures var g := Update(heap, s, attrs, leaves, keyValue, w).1.globals;
      "#{" + s.keyExpression.value + "}" in g && g["#{" + s.keyExpression.value + "}"] == Str(keyValue)
  {
    if s.valueExpression.Some? {
      BracesDiffer(s.keyExpression.value, s.valueExpression.value);
    }
  }

  /** Different expression texts give different "#{...}" expressions. */
  lemma BracesDiffer(a: string, b: string)
    requires a != b
    ensures "#{" + a + "}" != "#{" + b + "}"
  {
    var x, y := "#{" + a + "}", "#{" + b + "}";
    if |a| == |b| {
      assert x[2..|x| - 1] == a && y[2..|y| - 1] == b;
    }
  }

  /** Put reaches the update exactly when the selected key is a non-empty String and the structure is read. */
  lemma PutUpdatesAfterStructure(env: Env, heap: seq<Bean>, s: GridState, attrs: map<string, Value>, keyValue: string, w: GridWorld)
    requires |keyValue| > 0
    requires StringAttr(attrs, "structure").Ok?
    requires TokenizeSpec(env, w.cache, StringAttr(attrs, "structure").value, PutSinks()).step.err.None?
    ensures var t := TokenizeSpec(env, w.cache, StringAttr(attrs, "structure").value, PutSinks());
      GridPut(env, heap, s, Some(attrs), Str(keyValue), w) == Update(heap, s, attrs, t.step.out.leaves.value, keyValue, w.(cache := t.cache))
  {
  }

  /** An exception in the try block is reported as its message; no expression is written. */
  lemma BadStructureIsReported(env: Env, heap: seq<Bean>, s: GridState, store: Option<map<string, Value>>, keyValue: string, w: GridWorld)
    requires |keyValue| > 0
    requires ReadStructure(env, store, w.cache).0.Err?
    ensures var r := GridPut(env, heap, s, store, Str(keyValue), w);
      r.0.Ok? && r.1.messages == w.messages + [ReadStructure(env, store, w.cache).0.error.message]
      && r.1.globals == w.globals && r.1.current == w.current
  {
  }

  /** The first matching element is written to the value expression, and the item binding is cleared. */
  lemma FirstMatchIsSelected(heap: seq<Bean>, attrs: map<string, Value>, leaves: SMap<string>, keyValue: string,
                             valueExpression: string, w: GridWorld, items: seq<Value>, keyPath: string, i: nat)
    requires "items" in attrs && attrs["items"] == Lst(items)
    requires KeyBinding(attrs, leaves) == Some(keyPath)
    requires i < |items| && RowMatches(heap, StoreItemPath(attrs), keyPath, keyValue, items[i])
    requires forall j :: 0 <= j < i ==> !RowMatches(heap, StoreItemPath(attrs), keyPath, keyValue, items[j])
    ensures SetSelected(heap, attrs, leaves, keyValue, valueExpression, w)
      == (Ok(()), w.(globals := w.globals["#{" + valueExpression + "}" := items[i]], current := Null))
  {
    FindRowIsFirst(heap, items, StoreItemPath(attrs), keyPath, keyValue, 0);
  }

  /** Without a matching element (an empty list included) put throws, and the item stays bound to the last element. */
  lemma NoMatchThrows(heap: seq<Bean>, attrs: map<string, Value>, leaves: SMap<string>, keyValue: string,
                      valueExpression: string, w: GridWorld, items: seq<Value>, keyPath: string)
    requires "items" in attrs && attrs["items"] == Lst(items)
    requires KeyBinding(attrs, leaves) == Some(keyPath)
    requires forall j :: 0 <= j < |items| ==> !RowMatches(heap, StoreItemPath(attrs), keyPath, keyValue, items[j])
    ensures SetSelected(heap, attrs, leaves, keyValue, valueExpression, w)
      == (Fail(IllegalArgumentException, NoRowMessage(keyValue, valueExpression, keyPath)),
          w.(current := if |items| == 0 then w.current else items[|items| - 1]))
  {
    FindRowIsFirst(heap, items, StoreItemPath(attrs), keyPath, keyValue, 0);
  }

  /** The part of the faces context and the structure cache that put changes. */
  function World(ctx: FacesContext, structures: StructureCache): GridWorld
    reads ctx, structures
  {
    GridWorld(ctx.globals, ctx.current, ctx.messages, structures.cache)
  }

  class GridEventMap {
    var valueExpression: Option<string>
    var keyExpression: Option<string>
    var isSetValueExpression: bool
    var isSetKeyExpression: bool

    constructor ()
      ensures State() == GridState(None, false, None, false)
    {
      valueExpression, keyExpression := None, None;
      isSetValueExpression, isSetKeyExpression := false, false;
    }

    function State(): GridState
      reads this
    {
      GridState(keyExpression, isSetKeyExpression, valueExpression, isSetValueExpression)
    }

    /** GridEventMap.get. */
    method Get(o: Value) returns (r: Result<Reply<Value>>)
      modifies this
      ensures (r, State()) == GridGet(old(State()), o)
    {
      if !isSetKeyExpression {
        var k := CastString(o);
        if k.Err? {
          return Err(k.error);
        }
        keyExpression := k.value;
        isSetKeyExpression := true;
        return Ok(Itself);
      } else if !isSetValueExpression {
        var v := CastString(o);
        if v.Err? {
          return Err(v.error);
        }
        valueExpression := v.value;
        isSetValueExpression := true;
        return Ok(Itself);
      }
      r := Ok(Returned(Null));
    }

    /**
     * GridEventMap.put; `store` is the store component found for the grid. An exception
     * while reading the structure is reported as a message; later ones propagate.
     */
    method Put(ctx: FacesContext, store: Option<map<string, Value>>, keyValue: Value, structures: StructureCache, env: Env)
      returns (r: Result<()>)
      requires structures.Valid()
      modifies ctx`globals, ctx`current, ctx`messages, structures
      ensures structures.Valid()
      ensures (r, World(ctx, structures))
        == GridPut(env, ctx.heap, State(), store, keyValue, old(World(ctx, structures)))
    {
      if !(keyValue.Str? && |keyValue.s| > 0) {
        return Ok(());
      }
      ghost var w0 := World(ctx, structures);
      var leaves := TryStructure(store, structures, env);
      if leaves.Err? {
        ctx.messages := ctx.messages + [leaves.error.message];
        return Ok(());
      }
      ghost var w1 := w0.(cache := structures.cache);
      assert GridPut(env, ctx.heap, State(), store, keyValue, w0)
        == Update(ctx.heap, State(), store.value, leaves.value, keyValue.s, w1);
      r := Apply(ctx, store.value, leaves.value, keyValue.s, structures.cache);
    }

    /** The try block of put. */
    method TryStructure(store: Option<map<string, Value>>, structures: StructureCache, env: Env) returns (r: Result<SMap<string>>)
      requires structures.Valid()
      modifies structures
      ensures structures.Valid()
      ensures r.Ok? ==> store.Some?
      ensures (r, structures.cache) == ReadStructure(env, store, old(structures.cache))
    {
      if store.None? {
        return Err(Exception(NullPointerException, None));
      }
      var structure := StringAttr(store.value, "structure");
      if structure.Err? {
        return Err(structure.error);
      }
      var step := structures.Tokenize(structure.value, PutSinks(), env);
      if step.err.Some? {
        return Err(step.err.value);
      }
      r := Ok(step.out.leaves.value);
    }

    /** The part of put after the structure is read. */
    method Apply(ctx: FacesContext, attrs: map<string, Value>, leaves: SMap<string>, keyValue: string, ghost cache: map<string, seq<Field>>) returns (r: Result<()>)
      modifies ctx`globals, ctx`current
      ensures (r, GridWorld(ctx.globals, ctx.current, ctx.messages, cache))
        == Update(ctx.heap, State(), attrs, leaves, keyValue, GridWorld(old(ctx.globals), old(ctx.current), ctx.messages, cache))
    {
      if keyExpression.Some? && keyExpression.value != "" {
        ctx.globals := ctx.globals["#{" + keyExpression.value + "}" := Str(keyValue)];
      }
      if valueExpression.None? || valueExpression.value == "" {
        return Ok(());
      }
      r := Select(ctx, attrs, leaves, keyValue, valueExpression.value, cache);
    }

    /** The value part of put. */
    method Select(ctx: FacesContext, attrs: map<string, Value>, leaves: SMap<string>, keyValue: string, valuePath: string,
                  ghost cache: map<string, seq<Field>>)
      returns (r: Result<()>)
      modifies ctx`globals, ctx`current
      ensures (r, GridWorld(ctx.globals, ctx.current, ctx.messages, cache))
        == SetSelected(ctx.heap, attrs, leaves, keyValue, valuePath, GridWorld(old(ctx.globals), old(ctx.current), ctx.messages, cache))
    {
      var list := if "items" in attrs then attrs["items"] else Null;
      if list == Null {
        return Ok(());
      }
      if !list.Lst? {
        return Fail(ClassCastException, "cannot be cast to java.util.List");
      }
      var itemPath := StoreItemPath(attrs);
      var keyPath := KeyBinding(attrs, leaves);
      if keyPath.None? {
        return Fail(NullPointerException, "expression is null");
      }
      var found := Search(ctx, list.items, itemPath, keyPath.value, keyValue, valuePath);
      if !found {
        return Fail(IllegalArgumentException, NoRowMessage(keyValue, valuePath, keyPath.value));
      }
      ctx.current := Null;
      r := Ok(());
    }

    /** The loop of put: each element bound in turn until one matches; that one is written to the value expression. */
    method Search(ctx: FacesContext, items: seq<Value>, itemPath: string, keyPath: string, keyValue: string, valuePath: string)
      returns (valueSet: bool)
      modifies ctx`globals, ctx`current
      ensures var f := FindRow(ctx.heap, items, itemPath, keyPath, keyValue, 0);
        && (valueSet <==> f.Some?)
        && (f.Some? ==> ctx.globals == old(ctx.globals)["#{" + valuePath + "}" := items[f.value]])
        && (f.None? ==> ctx.globals == old(ctx.globals))
        && (f.None? ==> ctx.current == if |items| == 0 then old(ctx.current) else items[|items| - 1])
    {
      valueSet := false;
      var i := 0;
      while i < |items|
        invariant 0 <= i <= |items|
        invariant FindRow(ctx.heap, items, itemPath, keyPath, keyValue, 0) == FindRow(ctx.heap, items, itemPath, keyPath, keyValue, i)
        invariant ctx.globals == old(ctx.globals)
        invariant ctx.current == if i == 0 then old(ctx.current) else items[i - 1]
      {
        ctx.current := items[i];
        var id := Read(ctx.heap, ctx.current, itemPath, keyPath);
        if id != Null && keyValue == JavaText(id) {
          ctx.globals := ctx.globals["#{" + valuePath + "}" := items[i]];
          valueSet := true;
          break;
        }
        i := i + 1;
      }
    }
  }
}
