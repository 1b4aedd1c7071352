/**
 * StoreConverter: the serialization of a collection of model objects into the JSON text of
 * a grid store. getAsString reads the store's structure descriptor into the converter's
 * column maps and then builds one JSON object per item: each leaf column is read with the
 * item bound to the store's item variable and passed through the column's converter
 * (except null, Boolean and numeric values), and each child column holding a collection is
 * serialized recursively. The item binding is a single shared binding: it is rebound for
 * every item, also inside a recursion into children, and never restored.
 *
 * As in the reader, the serialization is given as functions (the specification) and as
 * methods over the faces context and the converter cache proved to compute them.
 */
module Serializer {
  import opened Values
  import opened Faces
  import opened ConverterBase

  /**
   * What a serialization consults and never changes: the services, the model objects, the
   * item expression, the column maps of the converter and the component's attributes.
   * leaves: valueBindingStrings, childPaths: childrenStrings, convStrings: converterStrings.
   */
  datatype Layout = Layout(
    env: Env,
    heap: seq<Bean>,
    itemPath: string,
    leaves: SMap<string>,
    childPaths: SMap<string>,
    numeric: SMap<bool>,
    convStrings: SMap<SMap<string>>,
    attrs: map<string, Value>)

  /** What a serialization changes: the value bound to the item variable and the converter caches. */
  datatype BState = BState(current: Value, conv: ConvState)

  /** A result, or the exception that stopped the serialization, and the state after it. */
  datatype Built<T> = Built(r: Result<T>, st: BState)

  /** A StackOverflowError: the JVM ran out of stack for nested buildJSON calls. */
  function Overflow<T>(): Result<T> {
    Err(Exception(StackOverflowError, None))
  }

  // ---------------------------------------------------------------------------
  // Leaf columns

  /** The values stored without asking for a converter: null, a Boolean, or a column flagged numeric. */
  predicate Raw(d: Layout, key: string, v: Value) {
    v == Null || v.Bool? || (key in d.numeric.vals && d.numeric.vals[key])
  }

  /** The value a leaf column's binding gives for the item currently bound. */
  function LeafRead(d: Layout, key: string, current: Value): Value {
    if key in d.leaves.vals then Read(d.heap, current, d.itemPath, d.leaves.vals[key]) else Null
  }

  /**
   * The value stored for a leaf column: a raw value as it is; otherwise the text the column's
   * converter gives, or the value itself when the column has no converter.
   */
  function Rendered(d: Layout, key: string, v: Value, st: BState): (o: Built<Value>)
    ensures Raw(d, key, v) ==> o == Built(Ok(v), st)
    ensures o.st.current == st.current
    ensures !Raw(d, key, v) ==> o.st.conv == Determine(d.env, key, d.convStrings, d.leaves, st.conv).st
  {
    if Raw(d, key, v) then Built(Ok(v), st)
    else
      var f := Determine(d.env, key, d.convStrings, d.leaves, st.conv);
      var st1 := st.(conv := f.st);
      match f.r
      case Err(e) => Built(Err(e), st1)
      case Ok(None) => Built(Ok(v), st1)
      case Ok(Some(c)) =>
        match d.env.toText(c, d.attrs, v)
        case Err(e) => Built(Err(e), st1)
        case Ok(Some(s)) => Built(Ok(Str(s)), st1)
        case Ok(None) => Built(Ok(Null), st1)
  }

  /** When the column has no converter, the value read is stored as it is. */
  lemma NoConverterStoresRaw(d: Layout, key: string, v: Value, st: BState)
    requires Determine(d.env, key, d.convStrings, d.leaves, st.conv).r == Ok(None)
    ensures Rendered(d, key, v, st).r == Ok(v)
  {
  }

  /** A converter's text is what is stored; a converter giving null leaves the column out of the object. */
  lemma ConverterTextIsStored(d: Layout, key: string, v: Value, st: BState, c: nat)
    requires !Raw(d, key, v)
    requires Determine(d.env, key, d.convStrings, d.leaves, st.conv).r == Ok(Some(c))
    requires d.env.toText(c, d.attrs, v).Ok?
    ensures var t := d.env.toText(c, d.attrs, v).value;
      Rendered(d, key, v, st).r == Ok(if t.Some? then Str(t.value) else Null)
  {
  }

  /** The leaf columns from the j-th on, each read for the bound item and put into `fields`. */
  function LeafFields(d: Layout, j: nat, fields: seq<Field>, st: BState): (o: Built<seq<Field>>)
    requires j <= |d.leaves.keys|
    ensures o.st.current == st.current
    ensures o.r.Ok? ==> forall n :: n !in d.leaves.keys[j..] ==> Lookup(o.r.value, n) == Lookup(fields, n)
    decreases |d.leaves.keys| - j
  {
    if j == |d.leaves.keys| then Built(Ok(fields), st)
    else
      var key := d.leaves.keys[j];
      assert d.leaves.keys[j..] == [key] + d.leaves.keys[j + 1..];
      var v := Rendered(d, key, LeafRead(d, key, st.current), st);
      match v.r
      case Err(e) => Built(Err(e), v.st)
      case Ok(x) => LeafFields(d, j + 1, JsonPut(fields, key, x), v.st)
  }

  /**
   * The state in which the leaf stage, started at the j-th column, reaches the m-th one; None
   * when a column before it failed.
   */
  function LeafStateAt(d: Layout, j: nat, st: BState, m: nat): (r: Option<BState>)
    requires j <= m <= |d.leaves.keys|
    ensures r.Some? ==> r.value.current == st.current
    decreases m - j
  {
    if j == m then Some(st)
    else
      var key := d.leaves.keys[j];
      var v := Rendered(d, key, LeafRead(d, key, st.current), st);
      if v.r.Err? then None else LeafStateAt(d, j + 1, v.st, m)
  }

  /**
   * A leaf column the stage visits holds what it renders for the bound item, in the state the
   * stage reaches it in; a null is not stored (JSONObject.put with null removes the key).
   */
  lemma {:induction false} LeafFieldsStoreRendered(d: Layout, j: nat, fields: seq<Field>, st: BState, m: nat)
    requires j <= m < |d.leaves.keys| && Distinct(d.leaves.keys)
    requires LeafFields(d, j, fields, st).r.Ok?
    ensures LeafStateAt(d, j, st, m).Some?
    ensures var key := d.leaves.keys[m];
      var x := Rendered(d, key, LeafRead(d, key, st.current), LeafStateAt(d, j, st, m).value).r;
      x.Ok? && Lookup(LeafFields(d, j, fields, st).r.value, key) == (if x.value == Null then None else Some(x.value))
    decreases m - j
  {
    var key := d.leaves.keys[j];
    var v := Rendered(d, key, LeafRead(d, key, st.current), st);
    if j == m {
      assert forall n :: j + 1 <= n < |d.leaves.keys| ==> d.leaves.keys[n] != key;
      assert key !in d.leaves.keys[j + 1..];
    } else {
      LeafFieldsStoreRendered(d, j + 1, JsonPut(fields, key, v.r.value), v.st, m);
    }
  }

  /** The child stage leaves every name that is not a child column as the leaf stage stored it. */
  lemma {:induction false} ChildFieldsKeepLeaves(d: Layout, j: nat, fields: seq<Field>, st: BState, fuel: nat, k: string)
    requires j <= |d.childPaths.keys| && k !in d.childPaths.keys
    requires ChildFields(d, j, fields, st, fuel).r.Ok?
    ensures Lookup(ChildFields(d, j, fields, st, fuel).r.value.fields, k) == Lookup(fields, k)
    decreases |d.childPaths.keys| - j
  {
    if j < |d.childPaths.keys| {
      var key := d.childPaths.keys[j];
      var cv := ChildRead(d, key, st.current);
      if cv.Lst? {
        var sub := BuildJSON(d, cv.items, st, fuel);
        ChildFieldsKeepLeaves(d, j + 1, Put(fields, key, Arr(sub.r.value)), sub.st, fuel, k);
      } else {
        ChildFieldsKeepLeaves(d, j + 1, fields, st, fuel, k);
      }
    }
  }

  // ---------------------------------------------------------------------------
  // buildJSON

  /**
   * buildJSON: one JSON object per item of `list`, in order. `fuel` is the number of nested
   * buildJSON calls the stack still allows.
   */
  function BuildJSON(d: Layout, list: seq<Value>, st: BState, fuel: nat): (o: Built<seq<Value>>)
    ensures o.r.Ok? ==> |o.r.value| == |list| && forall k :: 0 <= k < |list| ==> o.r.value[k].Obj?
    decreases fuel, 3
  {
    if fuel == 0 then Built(Overflow(), st) else Items(d, list, 0, [], st, fuel - 1)
  }

  /** The loop of buildJSON from the i-th item on; `acc` holds the objects built so far. */
  function Items(d: Layout, list: seq<Value>, i: nat, acc: seq<Value>, st: BState, fuel: nat): (o: Built<seq<Value>>)
    requires i <= |list|
    ensures o.r.Ok? ==> |o.r.value| == |acc| + |list| - i && o.r.value[..|acc|] == acc
    ensures o.r.Ok? ==> forall k :: |acc| <= k < |o.r.value| ==> o.r.value[k].Obj?
    decreases fuel, 6, |list| - i
  {
    if i == |list| then Built(Ok(acc), st)
    else
      var o := ItemObject(d, list[i], st, fuel);
      match o.r
      case Err(e) => Built(Err(e), o.st)
      case Ok(obj) =>
        var rest := Items(d, list, i + 1, acc + [obj], o.st, fuel);
        assert rest.r.Ok? ==> rest.r.value[..|acc|] == (rest.r.value[..|acc| + 1])[..|acc|];
        rest
  }

  /** The JSON object of one item: the item is bound, then the leaf columns, then the child columns. */
  function ItemObject(d: Layout, item: Value, st: BState, fuel: nat): (o: Built<Value>)
    ensures o.r.Ok? ==> o.r.value.Obj?
    decreases fuel, 5
  {
    var l := LeafFields(d, 0, [], st.(current := item));
    match l.r
    case Err(e) => Built(Err(e), l.st)
    case Ok(fields) => ChildFields(d, 0, fields, l.st, fuel)
  }

  /** The value a child column's binding gives for the item currently bound. */
  function ChildRead(d: Layout, key: string, current: Value): Value {
    if key in d.childPaths.vals then Read(d.heap, current, d.itemPath, d.childPaths.vals[key]) else Null
  }

  /**
   * The child columns from the j-th on: a column whose value is a collection holds its
   * serialization, any other is left out.
   */
  function ChildFields(d: Layout, j: nat, fields: seq<Field>, st: BState, fuel: nat): (o: Built<Value>)
    requires j <= |d.childPaths.keys|
    ensures o.r.Ok? ==> o.r.value.Obj?
    decreases fuel, 4, |d.childPaths.keys| - j
  {
    if j == |d.childPaths.keys| then Built(Ok(Obj(fields)), st)
    else
      var key := d.childPaths.keys[j];
      var cv := ChildRead(d, key, st.current);
      if cv.Lst? then
        var sub := BuildJSON(d, cv.items, st, fuel);
        match sub.r
        case Err(e) => Built(Err(e), sub.st)
        case Ok(objs) => ChildFields(d, j + 1, Put(fields, key, Arr(objs)), sub.st, fuel)
      else ChildFields(d, j + 1, fields, st, fuel)
  }

  // ---------------------------------------------------------------------------
  // Properties of buildJSON

  /** The first object built is the one of the first item, built from the state the loop starts in. */
  lemma FirstObjectIsFirstItem(d: Layout, list: seq<Value>, i: nat, acc: seq<Value>, st: BState, fuel: nat)
    requires i < |list| && Items(d, list, i, acc, st, fuel).r.Ok?
    ensures ItemObject(d, list[i], st, fuel).r.Ok?
    ensures Items(d, list, i, acc, st, fuel).r.value[|acc|] == ItemObject(d, list[i], st, fuel).r.value
  {
    var o := ItemObject(d, list[i], st, fuel);
    var rest := Items(d, list, i + 1, acc + [o.r.value], o.st, fuel);
    assert rest.r.value[..|acc| + 1] == acc + [o.r.value];
    assert rest.r.value[|acc|] == (rest.r.value[..|acc| + 1])[|acc|];
  }

  /** A child column whose value is not a collection adds nothing to the object. */
  lemma NonCollectionChildIsSkipped(d: Layout, j: nat, fields: seq<Field>, st: BState, fuel: nat)
    requires j < |d.childPaths.keys| && !ChildRead(d, d.childPaths.keys[j], st.current).Lst?
    ensures ChildFields(d, j, fields, st, fuel) == ChildFields(d, j + 1, fields, st, fuel)
  {
  }

  /** A child column whose value is a collection holds the serialization of that collection. */
  lemma CollectionChildIsSerialized(d: Layout, j: nat, fields: seq<Field>, st: BState, fuel: nat)
    requires j < |d.childPaths.keys|
    requires var cv := ChildRead(d, d.childPaths.keys[j], st.current);
      cv.Lst? && BuildJSON(d, cv.items, st, fuel).r.Ok?
    ensures var key := d.childPaths.keys[j];
      var sub := BuildJSON(d, ChildRead(d, key, st.current).items, st, fuel);
      ChildFields(d, j, fields, st, fuel) == ChildFields(d, j + 1, Put(fields, key, Arr(sub.r.value)), sub.st, fuel)
  {
  }

  /** The leaf columns are read with the item bound: building an object starts by binding its item. */
  lemma LeavesReadTheItem(d: Layout, item: Value, st: BState, fuel: nat)
    ensures var l := LeafFields(d, 0, [], st.(current := item));
      l.st.current == item
      && (l.r.Ok? ==> ItemObject(d, item, st, fuel) == ChildFields(d, 0, l.r.value, l.st, fuel))
  {
  }

  /**
   * What an item's object holds under a leaf column that is not also a child column: the
   * value the column renders for the item, in the state the leaf stage reaches it in, and no
   * entry when that value is null.
   */
  lemma ItemObjectLeaf(d: Layout, item: Value, st: BState, fuel: nat, m: nat)
    requires m < |d.leaves.keys| && Distinct(d.leaves.keys) && d.leaves.keys[m] !in d.childPaths.keys
    requires ItemObject(d, item, st, fuel).r.Ok?
    ensures LeafStateAt(d, 0, st.(current := item), m).Some?
    ensures var key := d.leaves.keys[m];
      var x := Rendered(d, key, LeafRead(d, key, item), LeafStateAt(d, 0, st.(current := item), m).value).r;
      x.Ok? && Lookup(ItemObject(d, item, st, fuel).r.value.fields, key) == (if x.value == Null then None else Some(x.value))
  {
    var s0 := st.(current := item);
    LeafFieldsStoreRendered(d, 0, [], s0, m);
    var l := LeafFields(d, 0, [], s0);
    ChildFieldsKeepLeaves(d, 0, l.r.value, l.st, fuel, d.leaves.keys[m]);
  }

  /** A raw leaf (null, a Boolean, or a column flagged numeric) is stored as read; a null is left out. */
  lemma RawLeafIsStored(d: Layout, item: Value, st: BState, fuel: nat, m: nat)
    requires m < |d.leaves.keys| && Distinct(d.leaves.keys) && d.leaves.keys[m] !in d.childPaths.keys
    requires ItemObject(d, item, st, fuel).r.Ok?
    requires Raw(d, d.leaves.keys[m], LeafRead(d, d.leaves.keys[m], item))
    ensures var v := LeafRead(d, d.leaves.keys[m], item);
      Lookup(ItemObject(d, item, st, fuel).r.value.fields, d.leaves.keys[m]) == (if v == Null then None else Some(v))
  {
    ItemObjectLeaf(d, item, st, fuel, m);
  }

  /** A leaf without a converter when the leaf stage reaches it is stored as read; a null is left out. */
  lemma UnconvertedLeafIsStored(d: Layout, item: Value, st: BState, fuel: nat, m: nat)
    requires m < |d.leaves.keys| && Distinct(d.leaves.keys) && d.leaves.keys[m] !in d.childPaths.keys
    requires ItemObject(d, item, st, fuel).r.Ok?
    requires LeafStateAt(d, 0, st.(current := item), m).Some?
    requires Determine(d.env, d.leaves.keys[m], d.convStrings, d.leaves, LeafStateAt(d, 0, st.(current := item), m).value.conv).r == Ok(None)
    ensures var v := LeafRead(d, d.leaves.keys[m], item);
      Lookup(ItemObject(d, item, st, fuel).r.value.fields, d.leaves.keys[m]) == (if v == Null then None else Some(v))
  {
    ItemObjectLeaf(d, item, st, fuel, m);
  }

  /** The state in which the loop of buildJSON, started at item i, reaches item k; None after a failure. */
  function ItemStateAt(d: Layout, list: seq<Value>, i: nat, st: BState, fuel: nat, k: nat): Option<BState>
    requires i <= k <= |list|
    decreases k - i
  {
    if i == k then Some(st)
    else
      var o := ItemObject(d, list[i], st, fuel);
      if o.r.Err? then None else ItemStateAt(d, list, i + 1, o.st, fuel, k)
  }

  /** Every object the loop builds is the object of its item, built in the state the loop reaches it in. */
  lemma {:induction false} ItemsAreItemObjects(d: Layout, list: seq<Value>, i: nat, acc: seq<Value>, st: BState, fuel: nat, k: nat)
    requires i <= k < |list| && Items(d, list, i, acc, st, fuel).r.Ok?
    ensures ItemStateAt(d, list, i, st, fuel, k).Some?
    ensures ItemObject(d, list[k], ItemStateAt(d, list, i, st, fuel, k).value, fuel).r
      == Ok(Items(d, list, i, acc, st, fuel).r.value[|acc| + k - i])
    decreases k - i
  {
    var o := ItemObject(d, list[i], st, fuel);
    if i == k {
      FirstObjectIsFirstItem(d, list, i, acc, st, fuel);
    } else {
      ItemsAreItemObjects(d, list, i + 1, acc + [o.r.value], o.st, fuel, k);
    }
  }

  /** The leaf stage keeps the names of the object distinct. */
  lemma {:induction false} LeafNamesDistinct(d: Layout, j: nat, fields: seq<Field>, st: BState)
    requires j <= |d.leaves.keys| && DistinctNames(fields)
    ensures LeafFields(d, j, fields, st).r.Ok? ==> DistinctNames(LeafFields(d, j, fields, st).r.value)
    decreases |d.leaves.keys| - j
  {
    if j < |d.leaves.keys| {
      var key := d.leaves.keys[j];
      var v := Rendered(d, key, LeafRead(d, key, st.current), st);
      if v.r.Ok? {
        JsonPutKeepsDistinct(fields, key, v.r.value);
        LeafNamesDistinct(d, j + 1, JsonPut(fields, key, v.r.value), v.st);
      }
    }
  }

  /** The child stage keeps the names of the object distinct. */
  lemma {:induction false} ChildNamesDistinct(d: Layout, j: nat, fields: seq<Field>, st: BState, fuel: nat)
    requires j <= |d.childPaths.keys| && DistinctNames(fields)
    ensures ChildFields(d, j, fields, st, fuel).r.Ok? ==> DistinctNames(ChildFields(d, j, fields, st, fuel).r.value.fields)
    decreases |d.childPaths.keys| - j
  {
    if j < |d.childPaths.keys| {
      var key := d.childPaths.keys[j];
      var cv := ChildRead(d, key, st.current);
      if cv.Lst? {
        var sub := BuildJSON(d, cv.items, st, fuel);
        if sub.r.Ok? {
          PutKeepsDistinct(fields, key, Arr(sub.r.value));
          ChildNamesDistinct(d, j + 1, Put(fields, key, Arr(sub.r.value)), sub.st, fuel);
        }
      } else {
        ChildNamesDistinct(d, j + 1, fields, st, fuel);
      }
    }
  }

  /** Every object built for an item has distinct member names. */
  lemma ObjectNamesDistinct(d: Layout, item: Value, st: BState, fuel: nat)
    ensures var o := ItemObject(d, item, st, fuel);
      o.r.Ok? ==> DistinctNames(o.r.value.fields)
  {
    var l := LeafFields(d, 0, [], st.(current := item));
    LeafNamesDistinct(d, 0, [], st.(current := item));
    if l.r.Ok? {
      ChildNamesDistinct(d, 0, l.r.value, l.st, fuel);
    }
  }

  /**
   * Without child columns the binding is left on the last item: buildJSON does not restore
   * the value bound to the item variable before it.
   */
  lemma {:induction false} BindingIsLeftOnLastItem(d: Layout, list: seq<Value>, i: nat, acc: seq<Value>, st: BState, fuel: nat)
    requires i < |list| && |d.childPaths.keys| == 0
    requires Items(d, list, i, acc, st, fuel).r.Ok?
    ensures Items(d, list, i, acc, st, fuel).st.current == list[|list| - 1]
    decreases |list| - i
  {
    var o := ItemObject(d, list[i], st, fuel);
    LeavesReadTheItem(d, list[i], st, fuel);
    assert o.st.current == list[i];
    if i + 1 < |list| {
      BindingIsLeftOnLastItem(d, list, i + 1, acc + [o.r.value], o.st, fuel);
    }
  }

  /** Without columns each item becomes an empty object. */
  lemma {:induction false} NoColumnsGiveEmptyObjects(d: Layout, list: seq<Value>, i: nat, acc: seq<Value>, st: BState, fuel: nat)
    requires i <= |list| && |d.leaves.keys| == 0 && |d.childPaths.keys| == 0
    ensures Items(d, list, i, acc, st, fuel).r.Ok?
    ensures forall k :: |acc| <= k < |acc| + |list| - i ==> Items(d, list, i, acc, st, fuel).r.value[k] == Obj([])
    decreases |list| - i
  {
    if i < |list| {
      var o := ItemObject(d, list[i], st, fuel);
      var l := LeafFields(d, 0, [], st.(current := list[i]));
      assert l.r == Ok([]);
      assert ChildFields(d, 0, [], l.st, fuel).r == Ok(Obj([]));
      NoColumnsGiveEmptyObjects(d, list, i + 1, acc + [Obj([])], o.st, fuel);
      var r := Items(d, list, i + 1, acc + [Obj([])], o.st, fuel).r.value;
      assert r[..|acc| + 1] == acc + [Obj([])];
      assert r[|acc|] == (r[..|acc| + 1])[|acc|];
    }
  }

  // ---------------------------------------------------------------------------
  // getAsString and getAsObject

  /** The catch of getAsString: a JSONException is rethrown as a ConverterException with its message. */
  function Wrap(e: Exception): (r: Exception)
    ensures IsJSONException(e) ==> r == Exception(ConverterException, e.message)
    ensures !IsJSONException(e) ==> r == e
  {
    if IsJSONException(e) then Exception(ConverterException, e.message) else e
  }

  /**
   * The state of a StoreConverter across calls: its column maps, its converter caches, the
   * value bound to the item variable, and the static structure cache.
   */
  datatype SerState = SerState(
    leaves: SMap<string>,
    childPaths: SMap<string>,
    numeric: SMap<bool>,
    convStrings: SMap<SMap<string>>,
    conv: ConvState,
    current: Value,
    structures: map<string, seq<Field>>)

  /** The maps the descriptor is read into: all but the validator specs. */
  function SinksOf(s: SerState): (out: Sinks)
    ensures out.leaves.Some? && out.children.Some? && out.numeric.Some? && out.converters.Some?
    ensures out.validators.None?
  {
    Sinks(Some(s.leaves), Some(s.childPaths), Some(s.numeric), Some(s.convStrings), None)
  }

  /** The converter's state once the descriptor was read. */
  function Absorb(s: SerState, tk: Tokenized): (r: SerState)
    requires SameShape(SinksOf(s), tk.step.out)
    ensures r.conv == s.conv && r.current == s.current && r.structures == tk.cache
  {
    var out := tk.step.out;
    s.(leaves := out.leaves.value, childPaths := out.children.value, numeric := out.numeric.value,
       convStrings := out.converters.value, structures := tk.cache)
  }

  /** The text getAsString returns, or the exception it throws, and the state after it. */
  datatype Answer = Answer(r: Result<string>, st: SerState)

  /**
   * getAsString: null or a String is the empty store "[]"; anything else must be a
   * collection. The descriptor in the `structure` attribute is read into the column maps
   * and the collection is serialized with its items bound to the `var` attribute.
   */
  function AsString(env: Env, heap: seq<Bean>, attrs: map<string, Value>, value: Value, s: SerState, stack: nat): (o: Answer)
    ensures value == Null || value.Str? ==> o == Answer(Ok("[]"), s)
    ensures !(value == Null || value.Str? || value.Lst?) ==> o.r.Err? && o.r.error.kind == ClassCastException && o.st == s
    ensures s.structures.Keys <= o.st.structures.Keys
    ensures o.r.Err? ==> !IsJSONException(o.r.error)
  {
    if value == Null || value.Str? then Answer(Ok("[]"), s)
    else if !value.Lst? then Answer(Fail(ClassCastException, "value is not a java.util.Collection"), s)
    else match StringAttr(attrs, "structure")
      case Err(e) => Answer(Err(e), s)
      case Ok(structure) =>
        match StringAttr(attrs, "var")
        case Err(e) => Answer(Err(e), s)
        case Ok(itemVar) =>
          var tk := TokenizeSpec(env, s.structures, structure, SinksOf(s));
          var s1 := Absorb(s, tk);
          if tk.step.err.Some? then Answer(Err(Wrap(tk.step.err.value)), s1)
          else Serialize(env, heap, attrs, ItemPath(itemVar), value.items, s1, stack)
  }

  /** What the serialization of a getAsString call consults. */
  function LayoutOf(env: Env, heap: seq<Bean>, attrs: map<string, Value>, itemPath: string, s: SerState): (d: Layout)
    ensures d.leaves == s.leaves && d.childPaths == s.childPaths && d.numeric == s.numeric && d.itemPath == itemPath
  {
    Layout(env, heap, itemPath, s.leaves, s.childPaths, s.numeric, s.convStrings, attrs)
  }

  /** The state buildJSON starts in: the leaf bindings (re)created in the converter's binding cache. */
  function StartOf(s: SerState): (st: BState)
    ensures st.current == s.current && st.conv.converters == s.conv.converters
  {
    BState(s.current, s.conv.(bindings := s.conv.bindings + s.leaves.vals))
  }

  /**
   * The part of getAsString after the descriptor was read: the value bindings of the leaf
   * columns are (re)created, then buildJSON runs and its array is written out.
   */
  function Serialize(env: Env, heap: seq<Bean>, attrs: map<string, Value>, itemPath: string, items: seq<Value>, s: SerState, stack: nat): (o: Answer)
    ensures o.st.structures == s.structures && o.st.leaves == s.leaves && o.st.childPaths == s.childPaths
    ensures o.r.Err? ==> !IsJSONException(o.r.error)
    ensures o.r.Ok? ==>
      exists objs: seq<Value> :: |objs| == |items| && (forall k :: 0 <= k < |objs| ==> objs[k].Obj?) && o.r.value == JsonText(Arr(objs))
  {
    var b := BuildJSON(LayoutOf(env, heap, attrs, itemPath, s), items, StartOf(s), stack);
    var s2 := s.(current := b.st.current, conv := b.st.conv);
    match b.r
    case Ok(objs) => Answer(Ok(JsonText(Arr(objs))), s2)
    case Err(e) => Answer(Err(Wrap(e)), s2)
  }

  /**
   * The text of a successful getAsString is the JSON array of the objects buildJSON built, the
   * k-th being the object of the k-th item in the state the loop reaches it in.
   */
  lemma SerializedObjects(env: Env, heap: seq<Bean>, attrs: map<string, Value>, itemPath: string, items: seq<Value>, s: SerState, stack: nat, k: nat)
    requires Serialize(env, heap, attrs, itemPath, items, s, stack).r.Ok? && k < |items|
    ensures var d := LayoutOf(env, heap, attrs, itemPath, s);
      var b := BuildJSON(d, items, StartOf(s), stack);
      && stack > 0 && b.r.Ok?
      && Serialize(env, heap, attrs, itemPath, items, s, stack).r.value == JsonText(Arr(b.r.value))
      && ItemStateAt(d, items, 0, StartOf(s), stack - 1, k).Some?
      && ItemObject(d, items[k], ItemStateAt(d, items, 0, StartOf(s), stack - 1, k).value, stack - 1).r == Ok(b.r.value[k])
  {
    ItemsAreItemObjects(LayoutOf(env, heap, attrs, itemPath, s), items, 0, [], StartOf(s), stack - 1, k);
  }

  /**
   * In the objects of a successful buildJSON, every item's object holds each raw leaf column
   * that is not a child column as it is read for that item, and no entry for it when null.
   */
  lemma BuiltRawLeaf(d: Layout, items: seq<Value>, st: BState, fuel: nat, k: nat, m: nat)
    requires BuildJSON(d, items, st, fuel).r.Ok? && k < |items|
    requires m < |d.leaves.keys| && Distinct(d.leaves.keys) && d.leaves.keys[m] !in d.childPaths.keys
    requires Raw(d, d.leaves.keys[m], LeafRead(d, d.leaves.keys[m], items[k]))
    ensures var objs := BuildJSON(d, items, st, fuel).r.value;
      var v := LeafRead(d, d.leaves.keys[m], items[k]);
      objs[k].Obj? && Lookup(objs[k].fields, d.leaves.keys[m]) == (if v == Null then None else Some(v))
  {
    ItemsAreItemObjects(d, items, 0, [], st, fuel - 1, k);
    RawLeafIsStored(d, items[k], ItemStateAt(d, items, 0, st, fuel - 1, k).value, fuel - 1, m);
  }

  /**
   * In the text of a successful getAsString, the object of every item holds each raw leaf
   * column (null, a Boolean, or flagged numeric) that is not a child column as it is read
   * for that item, and has no entry for it when it is null.
   */
  lemma SerializedRawLeaf(env: Env, heap: seq<Bean>, attrs: map<string, Value>, itemPath: string, items: seq<Value>, s: SerState, stack: nat, k: nat, m: nat)
    requires Serialize(env, heap, attrs, itemPath, items, s, stack).r.Ok? && k < |items|
    requires m < |s.leaves.keys| && Distinct(s.leaves.keys) && s.leaves.keys[m] !in s.childPaths.keys
    requires var d := LayoutOf(env, heap, attrs, itemPath, s); Raw(d, s.leaves.keys[m], LeafRead(d, s.leaves.keys[m], items[k]))
    ensures var d := LayoutOf(env, heap, attrs, itemPath, s);
      var objs := BuildJSON(d, items, StartOf(s), stack).r.value;
      var v := LeafRead(d, s.leaves.keys[m], items[k]);
      && Serialize(env, heap, attrs, itemPath, items, s, stack).r.value == JsonText(Arr(objs))
      && objs[k].Obj? && Lookup(objs[k].fields, s.leaves.keys[m]) == (if v == Null then None else Some(v))
  {
    BuiltRawLeaf(LayoutOf(env, heap, attrs, itemPath, s), items, StartOf(s), stack, k, m);
  }

  /** The text of an empty collection is the empty store. */
  lemma EmptyCollectionIsEmptyStore(env: Env, heap: seq<Bean>, attrs: map<string, Value>, itemPath: string, s: SerState, stack: nat)
    requires stack > 0
    ensures Serialize(env, heap, attrs, itemPath, [], s, stack).r == Ok("[]")
  {
    var d := Layout(env, heap, itemPath, s.leaves, s.childPaths, s.numeric, s.convStrings, attrs);
    var st := BState(s.current, s.conv.(bindings := s.conv.bindings + s.leaves.vals));
    assert Items(d, [], 0, [], st, stack - 1).r == Ok([]);
    assert JsonText(Arr([])) == "[]";
  }

  /** getAsObject: the store text is ignored and the component's `items` attribute returned. */
  function AsObject(attrs: map<string, Value>, store: string): (r: Value)
    ensures "items" in attrs ==> r == attrs["items"]
    ensures "items" !in attrs ==> r == Null
  {
    if "items" in attrs then attrs["items"] else Null
  }

  // ---------------------------------------------------------------------------
  // The serialization over the faces context and the converter cache

  /** The serialization state held by the objects it changes. */
  function Now(ctx: FacesContext, cache: ConverterCache): BState
    reads ctx, cache
  {
    BState(ctx.current, cache.State())
  }

  /** A leaf column's converter step, on the converter cache. */
  method RenderLeaf(d: Layout, key: string, v: Value, ctx: FacesContext, cache: ConverterCache) returns (r: Result<Value>)
    modifies cache
    ensures Built(r, Now(ctx, cache)) == Rendered(d, key, v, old(Now(ctx, cache)))
  {
    if v == Null || v.Bool? || (key in d.numeric.vals && d.numeric.vals[key]) {
      return Ok(v);
    }
    var c := cache.DetermineConverter(key, d.convStrings, d.leaves, d.env);
    if c.Err? {
      return Err(c.error);
    }
    if c.value.None? {
      return Ok(v);
    }
    var t := d.env.toText(c.value.value, d.attrs, v);
    if t.Err? {
      return Err(t.error);
    }
    r := if t.value.Some? then Ok(Str(t.value.value)) else Ok(Null);
  }

  /** The loop over the leaf columns of one item. */
  method FillLeaves(d: Layout, ctx: FacesContext, cache: ConverterCache) returns (r: Result<seq<Field>>)
    requires d.heap == ctx.heap
    modifies cache
    ensures Built(r, Now(ctx, cache)) == LeafFields(d, 0, [], old(Now(ctx, cache)))
  {
    ghost var target := LeafFields(d, 0, [], Now(ctx, cache));
    var fields := [];
    var j := 0;
    while j < |d.leaves.keys|
      invariant 0 <= j <= |d.leaves.keys|
      invariant LeafFields(d, j, fields, Now(ctx, cache)) == target
    {
      var key := d.leaves.keys[j];
      var v := if key in d.leaves.vals then Read(ctx.heap, ctx.current, d.itemPath, d.leaves.vals[key]) else Null;
      var x := RenderLeaf(d, key, v, ctx, cache);
      if x.Err? {
        return Err(x.error);
      }
      fields := JsonPut(fields, key, x.value);
      j := j + 1;
    }
    r := Ok(fields);
  }

  /** buildJSON, on the faces context and the converter cache. */
  method BuildArray(d: Layout, list: seq<Value>, ctx: FacesContext, cache: ConverterCache, fuel: nat) returns (r: Result<seq<Value>>)
    requires d.heap == ctx.heap
    modifies ctx`current, cache
    ensures Built(r, Now(ctx, cache)) == BuildJSON(d, list, old(Now(ctx, cache)), fuel)
    decreases fuel, 3
  {
    if fuel == 0 {
      return Overflow();
    }
    ghost var target := Items(d, list, 0, [], Now(ctx, cache), fuel - 1);
    var acc := [];
    var i := 0;
    while i < |list|
      invariant 0 <= i <= |list|
      invariant Items(d, list, i, acc, Now(ctx, cache), fuel - 1) == target
    {
      ghost var pre := Now(ctx, cache);
      var o := BuildObject(d, list[i], ctx, cache, fuel - 1);
      if o.Err? {
        assert Items(d, list, i, acc, pre, fuel - 1) == Built(Err(o.error), Now(ctx, cache));
        return Err(o.error);
      }
      assert Items(d, list, i, acc, pre, fuel - 1) == Items(d, list, i + 1, acc + [o.value], Now(ctx, cache), fuel - 1);
      acc := acc + [o.value];
      i := i + 1;
    }
    r := Ok(acc);
  }

  /** The JSON object of one item: the item is bound to the item variable, then the columns are read. */
  method BuildObject(d: Layout, item: Value, ctx: FacesContext, cache: ConverterCache, fuel: nat) returns (r: Result<Value>)
    requires d.heap == ctx.heap
    modifies ctx`current, cache
    ensures Built(r, Now(ctx, cache)) == ItemObject(d, item, old(Now(ctx, cache)), fuel)
    decreases fuel, 5
  {
    ctx.current := item;
    var fields := FillLeaves(d, ctx, cache);
    if fields.Err? {
      return Err(fields.error);
    }
    r := FillChildren(d, fields.value, ctx, cache, fuel);
  }

  /** The loop over the child columns of one item, recursing into those holding a collection. */
  method FillChildren(d: Layout, fields: seq<Field>, ctx: FacesContext, cache: ConverterCache, fuel: nat) returns (r: Result<Value>)
    requires d.heap == ctx.heap
    modifies ctx`current, cache
    ensures Built(r, Now(ctx, cache)) == ChildFields(d, 0, fields, old(Now(ctx, cache)), fuel)
    decreases fuel, 4
  {
    ghost var target := ChildFields(d, 0, fields, Now(ctx, cache), fuel);
    var fs := fields;
    var j := 0;
    while j < |d.childPaths.keys|
      invariant 0 <= j <= |d.childPaths.keys|
      invariant ChildFields(d, j, fs, Now(ctx, cache), fuel) == target
    {
      var key := d.childPaths.keys[j];
      var cv := if key in d.childPaths.vals then Read(ctx.heap, ctx.current, d.itemPath, d.childPaths.vals[key]) else Null;
      if cv.Lst? {
        var sub := BuildArray(d, cv.items, ctx, cache, fuel);
        if sub.Err? {
          return Err(sub.error);
        }
        fs := Put(fs, key, Arr(sub.value));
      }
      j := j + 1;
    }
    r := Ok(Obj(fs));
  }

  /** A StoreConverter instance: the column maps it fills and the converter caches it keeps. */
  class StoreConverter {
    var leaves: SMap<string>
    var childPaths: SMap<string>
    var numeric: SMap<bool>
    var convStrings: SMap<SMap<string>>
    const cache: ConverterCache

    constructor ()
      ensures leaves == EmptyMap() && childPaths == EmptyMap() && numeric == EmptyMap() && convStrings == EmptyMap()
      ensures fresh(cache) && cache.State() == ConvState(map[], map[])
    {
      leaves := EmptyMap();
      childPaths := EmptyMap();
      numeric := EmptyMap();
      convStrings := EmptyMap();
      cache := new ConverterCache();
    }

    /** The converter's state, with the bound item and the structure cache. */
    function Snap(ctx: FacesContext, structures: StructureCache): SerState
      reads this, cache, ctx, structures
    {
      SerState(leaves, childPaths, numeric, convStrings, cache.State(), ctx.current, structures.cache)
    }

    /** getAsString. */
    method GetAsString(ctx: FacesContext, comp: UIComponent, value: Value, structures: StructureCache, env: Env)
      returns (r: Result<string>)
      requires structures.Valid()
      modifies this, cache, ctx`current, structures
      ensures structures.Valid()
      ensures Answer(r, Snap(ctx, structures)) == AsString(env, ctx.heap, comp.attributes, value, old(Snap(ctx, structures)), ctx.stack)
    {
      if value == Null || value.Str? {
        return Ok("[]");
      }
      if !value.Lst? {
        return Fail(ClassCastException, "value is not a java.util.Collection");
      }
      var structure := StringAttr(comp.attributes, "structure");
      if structure.Err? {
        return Err(structure.error);
      }
      var itemVar := StringAttr(comp.attributes, "var");
      if itemVar.Err? {
        return Err(itemVar.error);
      }
      var step := structures.Tokenize(structure.value, SinksOf(Snap(ctx, structures)), env);
      leaves, childPaths, numeric, convStrings :=
        step.out.leaves.value, step.out.children.value, step.out.numeric.value, step.out.converters.value;
      if step.err.Some? {
        return Err(Wrap(step.err.value));
      }
      cache.bindings := cache.bindings + leaves.vals;
      var d := Layout(env, ctx.heap, ItemPath(itemVar.value), leaves, childPaths, numeric, convStrings, comp.attributes);
      var b := BuildArray(d, value.items, ctx, cache, ctx.stack);
      r := if b.Ok? then Ok(JsonText(Arr(b.value))) else Err(Wrap(b.error));
    }

    /** getAsObject. */
    method GetAsObject(comp: UIComponent, store: string) returns (r: Value)
      ensures r == AsObject(comp.attributes, store)
    {
      r := if "items" in comp.attributes then comp.attributes["items"] else Null;
    }
  }
}
