/**
 * StoreUpdateMap: the bean that applies the changes of a grid store to the model list.
 * Successive `get` calls fill its nine parameters in a fixed order; `put` reads the store's
 * structure descriptor and applies a JSON array of update entries, each of which may
 * insert an item, set attributes of items found by key, and delete an item found by key.
 * Items are found by a depth-first search through the child collections, and attributes
 * are set recursively, new child items being created for arrays of child objects.
 *
 * The value bound to the item variable is one shared binding: the search and the setter
 * rebind it for every item they visit, also inside child collections, and never restore it.
 */
module UpdateMap {
  import opened Values
  import opened Faces
  import opened ConverterBase

  // ---------------------------------------------------------------------------
  // The parameters

  /**
   * The parameters `get` fills, and how many of them are filled: the flags setList, setVar,
   * setKey, setOnInsert, setModelClass, setOnUpdate, setAutoUpdate, setOnDelete and
   * setAutoDelete are set in this order, so the first `filled` of them are set.
   */
  datatype Slots = Slots(
    list: Option<seq<Value>>,
    itemVar: Option<string>,
    key: Option<string>,
    onInsert: Option<string>,
    modelClass: Option<string>,
    onUpdate: Option<string>,
    autoUpdate: Option<string>,
    onDelete: Option<string>,
    autoDelete: Option<string>,
    filled: nat)

  /** The parameters of a new StoreUpdateMap. */
  function Fresh(): Slots {
    Slots(None, None, None, None, None, None, None, None, None, 0)
  }

  /** The string parameter in position n (1 for var up to 8 for autoDelete), set to v. */
  function Fill(s: Slots, n: nat, v: Option<string>): Slots {
    if n == 1 then s.(itemVar := v)
    else if n == 2 then s.(key := v)
    else if n == 3 then s.(onInsert := v)
    else if n == 4 then s.(modelClass := v)
    else if n == 5 then s.(onUpdate := v)
    else if n == 6 then s.(autoUpdate := v)
    else if n == 7 then s.(onDelete := v)
    else s.(autoDelete := v)
  }

  /**
   * get(o): the next unfilled parameter takes `o` and `this` is returned (true); once all
   * nine are filled, null is returned (false). The first call keeps `o` as the list only
   * when it is a List, but always moves on. A cast failure leaves the parameter unset,
   * except for var, whose flag is set before the cast.
   */
  function GetStep(s: Slots, o: Value): (r: (Result<bool>, Slots))
    ensures s.filled <= 9 ==> r.1.filled <= 9
    ensures s.filled >= 9 ==> r == (Ok(false), s)
    ensures s.filled == 0 ==> r.0 == Ok(true) && r.1.filled == 1
    ensures 0 < s.filled < 9 && (o == Null || o.Str?) ==> r.0 == Ok(true) && r.1.filled == s.filled + 1
    ensures 1 < s.filled < 9 && r.0.Err? ==> r.1 == s
  {
    if s.filled == 0 then (Ok(true), s.(list := if o.Lst? then Some(o.items) else s.list, filled := 1))
    else if s.filled >= 9 then (Ok(false), s)
    else match CastString(o)
      case Err(e) => (Err(e), if s.filled == 1 then s.(filled := 2) else s)
      case Ok(v) => (Ok(true), Fill(s, s.filled, v).(filled := s.filled + 1))
  }

  /** Feeding arguments to `get` one after the other: what each call returns, and the parameters after them. */
  function Feed(s: Slots, args: seq<Value>): (r: (seq<Result<bool>>, Slots))
    ensures |r.0| == |args|
    decreases |args|
  {
    if |args| == 0 then ([], s)
    else
      var g := GetStep(s, args[0]);
      var rest := Feed(g.1, args[1..]);
      ([g.0] + rest.0, rest.1)
  }

  /** The string value of an argument that is null or a String. */
  function StrOf(o: Value): Option<string> {
    if o.Str? then Some(o.s) else None
  }

  /** The string parameter in position n, as Fill numbers them. */
  function At(s: Slots, n: nat): Option<string> {
    if n == 1 then s.itemVar
    else if n == 2 then s.key
    else if n == 3 then s.onInsert
    else if n == 4 then s.modelClass
    else if n == 5 then s.onUpdate
    else if n == 6 then s.autoUpdate
    else if n == 7 then s.onDelete
    else s.autoDelete
  }

  /**
   * Calls to `get` with null or Strings, once the list is filled, fill the next string
   * parameters in order, each returning `this`, until all nine are filled; later calls
   * return null and change nothing.
   */
  lemma {:induction false} FeedFillsInOrder(s: Slots, args: seq<Value>)
    requires 1 <= s.filled <= 9
    requires forall i :: 0 <= i < |args| ==> args[i] == Null || args[i].Str?
    ensures var f := Feed(s, args);
      && (forall i :: 0 <= i < |args| ==> f.0[i] == Ok(s.filled + i < 9))
      && f.1.list == s.list
      && f.1.filled == (if s.filled + |args| < 9 then s.filled + |args| else 9)
      && forall n :: 1 <= n <= 8 ==>
           At(f.1, n) == if s.filled <= n < s.filled + |args| then StrOf(args[n - s.filled]) else At(s, n)
    decreases |args|
  {
    if |args| > 0 {
      var g := GetStep(s, args[0]);
      var s1 := g.1;
      FeedFillsInOrder(s1, args[1..]);
      var inner := Feed(s1, args[1..]);
      assert Feed(s, args) == ([g.0] + inner.0, inner.1);
      if s.filled < 9 {
        assert s1 == Fill(s, s.filled, StrOf(args[0])).(filled := s.filled + 1);
        forall n | 1 <= n <= 8
          ensures At(s1, n) == if n == s.filled then StrOf(args[0]) else At(s, n)
        {
        }
      }
    }
  }

  /**
   * Ten calls to `get` on a new map: the first keeps a List argument as the list, the
   * next eight fill var, key, onInsert, modelClass, onUpdate, autoUpdate, onDelete and
   * autoDelete in that order, and all nine return `this`; the tenth returns null.
   */
  lemma TenCalls(args: seq<Value>)
    requires |args| == 10 && forall i :: 1 <= i < 10 ==> args[i] == Null || args[i].Str?
    ensures forall i :: 0 <= i < 9 ==> Feed(Fresh(), args).0[i] == Ok(true)
    ensures Feed(Fresh(), args).0[9] == Ok(false)
    ensures Feed(Fresh(), args).1.list == (if args[0].Lst? then Some(args[0].items) else None)
    ensures forall n :: 1 <= n <= 8 ==> At(Feed(Fresh(), args).1, n) == StrOf(args[n])
  {
    var g := GetStep(Fresh(), args[0]);
    FeedFillsInOrder(g.1, args[1..]);
    var inner := Feed(g.1, args[1..]);
    var f := Feed(Fresh(), args);
    assert f == ([g.0] + inner.0, inner.1);
    forall i | 1 <= i < 10
      ensures f.0[i] == inner.0[i - 1] == Ok(i < 9)
    {
    }
    forall n | 1 <= n <= 8
      ensures At(f.1, n) == StrOf(args[1..][n - 1]) == StrOf(args[n])
    {
    }
  }

  /** isSetOnInsert and its siblings: the parameter is neither null nor empty. */
  predicate Given(p: Option<string>) {
    p.Some? && p.value != ""
  }

  /** Sets are applied unless autoUpdate is given and is not "true", in any case. */
  predicate AutoUpdates(s: Slots) {
    !Given(s.autoUpdate) || EqualsIgnoreCase(s.autoUpdate.value, "true")
  }

  /** Deletes are applied unless autoDelete is given and is not "true", in any case. */
  predicate AutoDeletes(s: Slots) {
    !Given(s.autoDelete) || EqualsIgnoreCase(s.autoDelete.value, "true")
  }

  // ---------------------------------------------------------------------------
  // The state an update changes

  /** What a put changes: the model objects, the value bound to the item variable, the list. */
  datatype UState = UState(heap: seq<Bean>, current: Value, list: Option<seq<Value>>)

  /** A result, or the exception that stopped the update, and the state after it. */
  datatype Applied<T> = Applied(r: Result<T>, st: UState)

  /**
   * What one put consults and never changes: the services, the parameters, the item
   * expression, and the leaf and child bindings of the descriptor.
   * vb: valueBindingStrings, childPaths: childrenStrings.
   */
  datatype Upd = Upd(env: Env, slots: Slots, itemPath: string, vb: SMap<string>, childPaths: SMap<string>, stack: nat)

  function Overflow<T>(): Result<T> {
    Err(Exception(StackOverflowError, None))
  }

  // ---------------------------------------------------------------------------
  // getItem

  /** The key of the item currently bound, as String.valueOf gives it, when the key column is bound. */
  predicate KeyIs(u: Upd, k: string, heap: seq<Bean>, item: Value) {
    && u.slots.key.Some? && u.slots.key.value in u.vb.vals
    && k == JavaText(Read(heap, item, u.itemPath, u.vb.vals[u.slots.key.value]))
  }

  /** A child collection of the item currently bound, as its binding gives it. */
  function ChildOf(u: Upd, j: nat, st: UState): Value
    requires j < |u.childPaths.keys|
  {
    var a := u.childPaths.keys[j];
    if a in u.childPaths.vals then Read(st.heap, st.current, u.itemPath, u.childPaths.vals[a]) else Null
  }

  /**
   * getItem over items[i..]: each item is bound and tested, then its child collections are
   * searched in child-binding order; null when nothing matches. `fuel` is the number of
   * nested getItem calls the stack still allows.
   */
  function FindList(u: Upd, k: string, items: seq<Value>, i: nat, st: UState, fuel: nat): (o: Applied<Value>)
    requires i <= |items|
    ensures o.st.heap == st.heap && o.st.list == st.list
    decreases fuel, |items| - i, 1
  {
    if i == |items| then Applied(Ok(Null), st)
    else
      var st1 := st.(current := items[i]);
      if KeyIs(u, k, st.heap, items[i]) then Applied(Ok(items[i]), st1)
      else FindChildren(u, k, items, i, 0, st1, fuel)
  }

  /** The search through the child collections of items[i], from the j-th child binding on. */
  function FindChildren(u: Upd, k: string, items: seq<Value>, i: nat, j: nat, st: UState, fuel: nat): (o: Applied<Value>)
    requires i < |items| && j <= |u.childPaths.keys|
    ensures o.st.heap == st.heap && o.st.list == st.list
    decreases fuel, |items| - i, 0, |u.childPaths.keys| - j
  {
    if j == |u.childPaths.keys| then FindList(u, k, items, i + 1, st, fuel)
    else
      var v := ChildOf(u, j, st);
      if v == Null then FindChildren(u, k, items, i, j + 1, st, fuel)
      else if !v.Lst? then Applied(Fail(ClassCastException, "cannot be cast to java.util.Collection"), st)
      else if fuel == 0 then Applied(Overflow(), st)
      else
        var sub := FindList(u, k, v.items, 0, st, fuel - 1);
        if sub.r.Err? || sub.r.value != Null then sub
        else FindChildren(u, k, items, i, j + 1, sub.st, fuel)
  }

  /**
   * With two child bindings the second child collection is read from whatever item the
   * search of the first one left bound. Here the top item's second collection holds the
   * item with key "2", but it is read from the item of the first collection, which has no
   * children, so getItem answers null.
   */
  lemma SecondChildReadFromLastVisited(u: Upd, st: UState)
    requires u.itemPath == "#{row}" && u.slots.key == Some("id") && u.vb.vals == map["id" := "#{row.id}"]
    requires u.childPaths == SMap(["a", "b"], map["a" := "#{row.a}", "b" := "#{row.b}"])
    requires st.heap == [
      Bean("Row", map["#{row.id}" := Str("0"), "#{row.a}" := Lst([Ref(1)]), "#{row.b}" := Lst([Ref(2)])]),
      Bean("Row", map["#{row.id}" := Str("1")]),
      Bean("Row", map["#{row.id}" := Str("2")])]
    ensures Read(st.heap, Ref(0), u.itemPath, "#{row.b}") == Lst([Ref(2)]) && KeyIs(u, "2", st.heap, Ref(2))
    ensures FindList(u, "2", [Ref(0)], 0, st, 2).r == Ok(Null)
  {
    var k := "2";
    var heap := st.heap;
    assert JavaText(Str("0")) == "0" && JavaText(Str("1")) == "1" && JavaText(Str("2")) == "2";
    assert Read(heap, Ref(1), u.itemPath, "#{row.id}") == Str("1");
    assert Read(heap, Ref(0), u.itemPath, "#{row.id}") == Str("0");
    assert Read(heap, Ref(2), u.itemPath, "#{row.id}") == Str("2");
    var st0 := st.(current := Ref(0));
    var st1 := st.(current := Ref(1));
    assert Read(heap, Ref(1), u.itemPath, "#{row.a}") == Null && Read(heap, Ref(1), u.itemPath, "#{row.b}") == Null;
    assert ChildOf(u, 0, st1) == Null && ChildOf(u, 1, st1) == Null;
    assert FindChildren(u, k, [Ref(1)], 0, 2, st1, 1) == Applied(Ok(Null), st1);
    assert FindChildren(u, k, [Ref(1)], 0, 1, st1, 1) == Applied(Ok(Null), st1);
    assert FindChildren(u, k, [Ref(1)], 0, 0, st1, 1) == Applied(Ok(Null), st1);
    assert !KeyIs(u, k, heap, Ref(1));
    var sub := FindList(u, k, [Ref(1)], 0, st0, 1);
    assert sub == Applied(Ok(Null), st1);
    assert ChildOf(u, 0, st0) == Lst([Ref(1)]);
    assert FindChildren(u, k, [Ref(0)], 0, 2, st1, 2).r == Ok(Null);
    assert FindChildren(u, k, [Ref(0)], 0, 1, st1, 2).r == Ok(Null);
    assert FindChildren(u, k, [Ref(0)], 0, 0, st0, 2).r == Ok(Null);
    assert !KeyIs(u, k, heap, Ref(0));
  }

  /** getItem on the target list: a null list finds nothing. */
  function FindTop(u: Upd, k: string, st: UState): (o: Applied<Value>)
    ensures st.list.None? ==> o == Applied(Ok(Null), st)
    ensures o.st.heap == st.heap && o.st.list == st.list
  {
    match st.list
    case None => Applied(Ok(Null), st)
    case Some(items) => FindList(u, k, items, 0, st, u.stack)
  }

  /** The item found has the key searched for. */
  lemma {:induction false} FoundHasKey(u: Upd, k: string, items: seq<Value>, i: nat, st: UState, fuel: nat)
    requires i <= |items|
    ensures var o := FindList(u, k, items, i, st, fuel);
      o.r.Ok? && o.r.value != Null ==> KeyIs(u, k, st.heap, o.r.value)
    decreases fuel, |items| - i, 1
  {
    if i < |items| && !KeyIs(u, k, st.heap, items[i]) {
      FoundInChildrenHasKey(u, k, items, i, 0, st.(current := items[i]), fuel);
    }
  }

  lemma {:induction false} FoundInChildrenHasKey(u: Upd, k: string, items: seq<Value>, i: nat, j: nat, st: UState, fuel: nat)
    requires i < |items| && j <= |u.childPaths.keys|
    ensures var o := FindChildren(u, k, items, i, j, st, fuel);
      o.r.Ok? && o.r.value != Null ==> KeyIs(u, k, st.heap, o.r.value)
    decreases fuel, |items| - i, 0, |u.childPaths.keys| - j
  {
    if j == |u.childPaths.keys| {
      FoundHasKey(u, k, items, i + 1, st, fuel);
    } else {
      var v := ChildOf(u, j, st);
      if v == Null {
        FoundInChildrenHasKey(u, k, items, i, j + 1, st, fuel);
      } else if v.Lst? && fuel > 0 {
        var sub := FindList(u, k, v.items, 0, st, fuel - 1);
        FoundHasKey(u, k, v.items, 0, st, fuel - 1);
        if sub.r.Ok? && sub.r.value == Null {
          FoundInChildrenHasKey(u, k, items, i, j + 1, sub.st, fuel);
        }
      }
    }
  }

  /** The first position from i on whose item has key k, or -1: the reference search of a flat list. */
  function FirstWithKey(u: Upd, k: string, heap: seq<Bean>, items: seq<Value>, i: nat): (r: int)
    requires i <= |items|
    ensures r == -1 || i <= r < |items|
    ensures r == -1 ==> forall j :: i <= j < |items| ==> !KeyIs(u, k, heap, items[j])
    ensures r != -1 ==> KeyIs(u, k, heap, items[r]) && forall j :: i <= j < r ==> !KeyIs(u, k, heap, items[j])
    decreases |items| - i
  {
    if i == |items| then -1
    else if KeyIs(u, k, heap, items[i]) then i
    else FirstWithKey(u, k, heap, items, i + 1)
  }

  /**
   * Without child bindings getItem is the first item whose key matches, and null when none
   * does (a matching null item also gives null).
   */
  lemma {:induction false} FlatFindIsFirstMatch(u: Upd, k: string, items: seq<Value>, i: nat, st: UState, fuel: nat)
    requires i <= |items| && |u.childPaths.keys| == 0
    ensures var f := FirstWithKey(u, k, st.heap, items, i);
      FindList(u, k, items, i, st, fuel).r == Ok(if f == -1 then Null else items[f])
    decreases |items| - i
  {
    if i < |items| && !KeyIs(u, k, st.heap, items[i]) {
      FlatFindIsFirstMatch(u, k, items, i + 1, st.(current := items[i]), fuel);
    }
  }

  /**
   * When getItem finds nothing, no item of items[i..] has the key, whatever the child
   * bindings; the one exception is a null item that has the key, which ends the search of
   * its own list with null.
   */
  lemma {:induction false} NotFoundMeansNoKey(u: Upd, k: string, items: seq<Value>, i: nat, st: UState, fuel: nat)
    requires i <= |items|
    ensures FindList(u, k, items, i, st, fuel).r == Ok(Null) ==>
      (forall j :: i <= j < |items| ==> !KeyIs(u, k, st.heap, items[j])) || (KeyIs(u, k, st.heap, Null) && Null in items[i..])
    decreases |items| - i, 1
  {
    if i < |items| && !KeyIs(u, k, st.heap, items[i]) {
      ChildrenNotFoundMeansNoKey(u, k, items, i, 0, st.(current := items[i]), fuel);
      assert items[i + 1..] == items[i..][1..];
    }
  }

  lemma {:induction false} ChildrenNotFoundMeansNoKey(u: Upd, k: string, items: seq<Value>, i: nat, j: nat, st: UState, fuel: nat)
    requires i < |items| && j <= |u.childPaths.keys|
    ensures FindChildren(u, k, items, i, j, st, fuel).r == Ok(Null) ==>
      (forall q :: i + 1 <= q < |items| ==> !KeyIs(u, k, st.heap, items[q])) || (KeyIs(u, k, st.heap, Null) && Null in items[i + 1..])
    decreases |items| - i, 0, |u.childPaths.keys| - j
  {
    if j == |u.childPaths.keys| {
      NotFoundMeansNoKey(u, k, items, i + 1, st, fuel);
    } else {
      var v := ChildOf(u, j, st);
      if v == Null {
        ChildrenNotFoundMeansNoKey(u, k, items, i, j + 1, st, fuel);
      } else if v.Lst? && fuel > 0 {
        var sub := FindList(u, k, v.items, 0, st, fuel - 1);
        if sub.r == Ok(Null) {
          ChildrenNotFoundMeansNoKey(u, k, items, i, j + 1, sub.st, fuel);
        }
      }
    }
  }

  /** A walk through a tree of items: the items visited, in order, and the exception that ended it early, if any. */
  datatype Walk = Walk(nodes: seq<Value>, err: Option<Exception>)

  /** The collection the first child binding gives for `x`, read with `x` bound. */
  function Kids(u: Upd, heap: seq<Bean>, x: Value): Value
    requires |u.childPaths.keys| > 0
  {
    var a := u.childPaths.keys[0];
    if a in u.childPaths.vals then Read(heap, x, u.itemPath, u.childPaths.vals[a]) else Null
  }

  /** The walk `a`, then the walk `b` unless `a` ended in an exception. */
  function Then(a: Walk, b: Walk): Walk {
    if a.err.Some? then a else Walk(a.nodes + b.nodes, b.err)
  }

  /**
   * The reference traversal with one child binding: items[i..] in pre-order, every item
   * before the items of its child collection. A child value that is not a collection, or a
   * collection nested deeper than `fuel` allows, ends the walk with its exception.
   */
  function Preorder(u: Upd, heap: seq<Bean>, items: seq<Value>, i: nat, fuel: nat): Walk
    requires |u.childPaths.keys| > 0 && i <= |items|
    decreases fuel, 1, |items| - i
  {
    if i == |items| then Walk([], None)
    else
      var d := Descendants(u, heap, items[i], fuel);
      Then(Walk([items[i]] + d.nodes, d.err), Preorder(u, heap, items, i + 1, fuel))
  }

  /** The walk below `x`: its child collection in pre-order, if it has one. */
  function Descendants(u: Upd, heap: seq<Bean>, x: Value, fuel: nat): Walk
    requires |u.childPaths.keys| > 0
    decreases fuel, 0, 0
  {
    var v := Kids(u, heap, x);
    if v == Null then Walk([], None)
    else if !v.Lst? then Walk([], Some(Exception(ClassCastException, Some("cannot be cast to java.util.Collection"))))
    else if fuel == 0 then Walk([], Some(Exception(StackOverflowError, None)))
    else Preorder(u, heap, v.items, 0, fuel - 1)
  }

  /** What a search following walk `w` answers: its first item with the key, else the exception that ended it, else null. */
  function FirstInWalk(u: Upd, k: string, heap: seq<Bean>, w: Walk): Result<Value> {
    var f := FirstWithKey(u, k, heap, w.nodes, 0);
    if f != -1 then Ok(w.nodes[f]) else if w.err.Some? then Err(w.err.value) else Ok(Null)
  }

  /** The first match in a concatenation is the first match of its first part, else one of its second part. */
  lemma FirstOfConcat(u: Upd, k: string, heap: seq<Bean>, a: seq<Value>, b: seq<Value>)
    ensures var fa := FirstWithKey(u, k, heap, a, 0); var fb := FirstWithKey(u, k, heap, b, 0);
      FirstWithKey(u, k, heap, a + b, 0) == if fa != -1 then fa else if fb == -1 then -1 else |a| + fb
  {
    var fa := FirstWithKey(u, k, heap, a, 0);
    var fb := FirstWithKey(u, k, heap, b, 0);
    if fa != -1 {
      assert (a + b)[fa] == a[fa];
    } else if fb != -1 {
      assert (a + b)[|a| + fb] == b[fb];
    }
  }

  /** An item without the key in front of a walk changes nothing of what the search answers. */
  lemma FirstInWalkSkips(u: Upd, k: string, heap: seq<Bean>, x: Value, d: Walk)
    requires !KeyIs(u, k, heap, x)
    ensures FirstInWalk(u, k, heap, Walk([x] + d.nodes, d.err)) == FirstInWalk(u, k, heap, d)
  {
    FirstOfConcat(u, k, heap, [x], d.nodes);
    var f := FirstWithKey(u, k, heap, d.nodes, 0);
    if f != -1 {
      assert ([x] + d.nodes)[1 + f] == d.nodes[f];
    }
  }

  /** When no null item has the key, a search through `a` then `b` goes on to `b` exactly when `a` answers null. */
  lemma FirstInThen(u: Upd, k: string, heap: seq<Bean>, a: Walk, b: Walk)
    requires !KeyIs(u, k, heap, Null)
    ensures FirstInWalk(u, k, heap, Then(a, b)) ==
      if FirstInWalk(u, k, heap, a) == Ok(Null) then FirstInWalk(u, k, heap, b) else FirstInWalk(u, k, heap, a)
  {
    if a.err.None? {
      FirstOfConcat(u, k, heap, a.nodes, b.nodes);
      var fb := FirstWithKey(u, k, heap, b.nodes, 0);
      if FirstWithKey(u, k, heap, a.nodes, 0) == -1 && fb != -1 {
        assert (a.nodes + b.nodes)[|a.nodes| + fb] == b.nodes[fb];
      }
    }
  }

  /**
   * With one child binding, getItem answers what the pre-order reference walk answers: the
   * first item of the whole tree, in pre-order, that has the key; when there is none, the
   * exception the walk met, or null. This holds when no null item has the key, that is
   * unless the key searched for is "null".
   */
  lemma {:induction false} FindIsFirstInPreorder(u: Upd, k: string, items: seq<Value>, i: nat, st: UState, fuel: nat)
    requires |u.childPaths.keys| == 1 && i <= |items| && !KeyIs(u, k, st.heap, Null)
    ensures FindList(u, k, items, i, st, fuel).r == FirstInWalk(u, k, st.heap, Preorder(u, st.heap, items, i, fuel))
    decreases fuel, |items| - i
  {
    var heap := st.heap;
    if i < |items| {
      var x := items[i];
      var st1 := st.(current := x);
      var d := Descendants(u, heap, x, fuel);
      var head := Walk([x] + d.nodes, d.err);
      var rest := Preorder(u, heap, items, i + 1, fuel);
      FirstInThen(u, k, heap, head, rest);
      if KeyIs(u, k, heap, x) {
        assert FirstWithKey(u, k, heap, head.nodes, 0) == 0;
      } else {
        FirstInWalkSkips(u, k, heap, x, d);
        var v := Kids(u, heap, x);
        assert ChildOf(u, 0, st1) == v;
        if v == Null {
          assert FindChildren(u, k, items, i, 0, st1, fuel) == FindChildren(u, k, items, i, 1, st1, fuel);
          FindIsFirstInPreorder(u, k, items, i + 1, st1, fuel);
        } else if v.Lst? && fuel > 0 {
          var sub := FindList(u, k, v.items, 0, st1, fuel - 1);
          FindIsFirstInPreorder(u, k, v.items, 0, st1, fuel - 1);
          if sub.r == Ok(Null) {
            assert FindChildren(u, k, items, i, 0, st1, fuel) == FindChildren(u, k, items, i, 1, sub.st, fuel);
            FindIsFirstInPreorder(u, k, items, i + 1, sub.st, fuel);
          }
        }
      }
    }
  }

  // ---------------------------------------------------------------------------
  // setItem

  /** Binds the collection or value `v` to the child or leaf expression `path` of the object `target`, when it is one. */
  function Attach(heap: seq<Bean>, target: Value, path: string, v: Value): (h: seq<Bean>)
    ensures |h| == |heap|
    ensures target.Ref? && target.id < |heap| ==> h[target.id] == Bean(heap[target.id].cls, heap[target.id].props[path := v])
    ensures forall n :: 0 <= n < |heap| && target != Ref(n) ==> h[n] == heap[n]
  {
    match Write(heap, target, path, v)
    case Ok(h1) => h1
    case Err(_) => heap
  }

  /** `(JSONObject) x`. */
  function ObjectCast(x: Value): (r: Result<seq<Field>>)
    ensures r.Ok? <==> x.Obj?
    ensures r.Ok? ==> r.value == x.fields
  {
    if x.Obj? then Ok(x.fields) else Fail(ClassCastException, "cannot be cast to org.j4fry.json.JSONObject")
  }

  /** A leaf attribute that is bound, writable and bound to the item expression itself. */
  predicate BindsItem(u: Upd, a: string) {
    a in u.vb.vals && !u.env.readOnly(u.vb.vals[a]) && u.vb.vals[a] == u.itemPath
  }

  /** What a leaf value gives the model: a store sends leaves as arrays, of which the first element counts, or null when empty. */
  function LeafValue(value: Value): Value {
    if value.Arr? then (if |value.elems| == 0 then Null else value.elems[0]) else value
  }

  /**
   * A leaf attribute of setItem: skipped unless its column is bound and writable; the
   * whole-item expression replaces the item; an array gives its first element, or null
   * when empty; any other value is written as it is. The result is the item afterwards.
   */
  function SetLeaf(u: Upd, a: string, value: Value, item: Value, st: UState): (o: Applied<Value>)
    ensures o.st.current == st.current && o.st.list == st.list && |o.st.heap| == |st.heap|
    ensures !(a in u.vb.vals && !u.env.readOnly(u.vb.vals[a])) ==> o == Applied(Ok(item), st)
    ensures a in u.vb.vals && u.vb.vals[a] == u.itemPath && !u.env.readOnly(u.itemPath) ==> o == Applied(Ok(value), st)
    ensures o.r.Ok? ==> o.r.value == if BindsItem(u, a) then value else item
    ensures o.r.Err? ==> o.st == st
  {
    if !(a in u.vb.vals && !u.env.readOnly(u.vb.vals[a])) then Applied(Ok(item), st)
    else
      var path := u.vb.vals[a];
      if path == u.itemPath then Applied(Ok(value), st)
      else
        var x :=
          if value.Arr? then (if |value.elems| == 0 then Ok(Null) else ArrayGet(value.elems, 0))
          else Ok(value);
        match x
        case Err(e) => Applied(Err(e), st)
        case Ok(w) =>
          match Write(st.heap, st.current, path, w)
          case Err(e) => Applied(Err(e), st)
          case Ok(h) => Applied(Ok(item), st.(heap := h))
  }

  /**
   * A leaf attribute changes no bean but the current item, and a writable column other than
   * the whole item is set exactly when the current item is a live bean and the value is not
   * an array starting with null; what is read back from it then is the leaf value.
   */
  lemma SetLeafWritesColumn(u: Upd, a: string, value: Value, item: Value, st: UState)
    ensures var o := SetLeaf(u, a, value, item, st);
      forall n :: 0 <= n < |st.heap| && st.current != Ref(n) ==> o.st.heap[n] == st.heap[n]
    ensures var o := SetLeaf(u, a, value, item, st);
      a in u.vb.vals && !u.env.readOnly(u.vb.vals[a]) && u.vb.vals[a] != u.itemPath ==>
      && (o.r.Ok? <==> st.current.Ref? && st.current.id < |st.heap| && !(value.Arr? && |value.elems| > 0 && value.elems[0] == Null))
      && (o.r.Ok? ==> Read(o.st.heap, st.current, u.itemPath, u.vb.vals[a]) == LeafValue(value))
  {
  }

  /**
   * setItem: binds `item`, then sets its attributes in key order; returns the item, which
   * the whole-item expression may have replaced. `cls` is the class new child items are
   * created from. `fuel` is the number of nested setItem calls the stack still allows.
   */
  function SetItem(u: Upd, attrs: seq<Field>, cls: string, item: Value, st: UState, fuel: nat): (o: Applied<Value>)
    ensures |st.heap| <= |o.st.heap| && o.st.list == st.list
    ensures |attrs| == 0 ==> o == Applied(Ok(item), st.(current := item))
    ensures o.r.Ok? ==> o.r.value == ItemAfter(u, attrs, 0, item)
    decreases fuel, 4
  {
    SetAttrs(u, attrs, 0, cls, item, st.(current := item), fuel)
  }

  /**
   * The item setItem returns once attrs[j..] are set: the value of the last leaf attribute
   * that replaces the whole item, else `item`.
   */
  function ItemAfter(u: Upd, attrs: seq<Field>, j: nat, item: Value): Value
    requires j <= |attrs|
    decreases |attrs| - j
  {
    if j == |attrs| then item
    else ItemAfter(u, attrs, j + 1, if ReplacesItem(u, attrs[j].name) then attrs[j].val else item)
  }

  /** A leaf attribute bound to the whole-item expression. */
  predicate ReplacesItem(u: Upd, a: string) {
    a !in u.childPaths.vals && BindsItem(u, a)
  }

  /**
   * The item after attrs[j..] is `item` when none of them replaces the item, and otherwise
   * the value of one that does.
   */
  lemma {:induction false} ItemAfterIsAReplacement(u: Upd, attrs: seq<Field>, j: nat, item: Value)
    requires j <= |attrs|
    ensures (forall n :: j <= n < |attrs| ==> !ReplacesItem(u, attrs[n].name)) ==> ItemAfter(u, attrs, j, item) == item
    ensures var r := ItemAfter(u, attrs, j, item);
      r == item || exists n :: j <= n < |attrs| && ReplacesItem(u, attrs[n].name) && r == attrs[n].val
    decreases |attrs| - j
  {
    if j < |attrs| {
      var next := if ReplacesItem(u, attrs[j].name) then attrs[j].val else item;
      ItemAfterIsAReplacement(u, attrs, j + 1, next);
    }
  }

  /** The attribute loop of setItem from the j-th attribute on. */
  function SetAttrs(u: Upd, attrs: seq<Field>, j: nat, cls: string, item: Value, st: UState, fuel: nat): (o: Applied<Value>)
    requires j <= |attrs|
    ensures |st.heap| <= |o.st.heap| && o.st.list == st.list
    ensures o.r.Ok? ==> o.r.value == ItemAfter(u, attrs, j, item)
    decreases fuel, 3, |attrs| - j
  {
    if j == |attrs| then Applied(Ok(item), st)
    else
      var a := SetAttr(u, attrs[j].name, attrs[j].val, cls, item, st, fuel);
      match a.r
      case Err(e) => Applied(Err(e), a.st)
      case Ok(item1) => SetAttrs(u, attrs, j + 1, cls, item1, a.st, fuel)
  }

  /**
   * One attribute of setItem. A child attribute with an array value gets a fresh list,
   * bound before it is filled, holding one new item per element, each set recursively; a
   * child attribute with any other value is set to null.
   */
  function SetAttr(u: Upd, a: string, value: Value, cls: string, item: Value, st: UState, fuel: nat): (o: Applied<Value>)
    ensures |st.heap| <= |o.st.heap| && o.st.list == st.list
    ensures o.r.Ok? ==> o.r.value == if ReplacesItem(u, a) then value else item
    decreases fuel, 2
  {
    if a in u.childPaths.vals then
      var path := u.childPaths.vals[a];
      var target := st.current;
      if value.Arr? then
        match Write(st.heap, target, path, Lst([]))
        case Err(e) => Applied(Err(e), st)
        case Ok(h) =>
          var c := NewChildren(u, value.elems, 0, cls, target, path, [], st.(heap := h), fuel);
          Applied(if c.r.Ok? then Ok(item) else Err(c.r.error), c.st)
      else
        match Write(st.heap, target, path, Null)
        case Err(e) => Applied(Err(e), st)
        case Ok(h) => Applied(Ok(item), st.(heap := h))
    else SetLeaf(u, a, value, item, st)
  }

  /**
   * The child list of a child attribute from the i-th element on: a new item of class
   * `cls` per element, set from the element, added to the list bound to `path` of `target`.
   */
  function NewChildren(u: Upd, es: seq<Value>, i: nat, cls: string, target: Value, path: string, acc: seq<Value>, st: UState, fuel: nat)
    : (o: Applied<seq<Value>>)
    requires i <= |es|
    ensures |st.heap| <= |o.st.heap| && o.st.list == st.list
    ensures o.r.Ok? ==> |o.r.value| == |acc| + |es| - i
    decreases fuel, 1, |es| - i
  {
    if i == |es| then Applied(Ok(acc), st)
    else
      match ArrayGet(es, i)
      case Err(e) => Applied(Err(e), st)
      case Ok(x) =>
        match ObjectCast(x)
        case Err(e) => Applied(Err(e), st)
        case Ok(fs) =>
          var child := NewChild(u, fs, cls, st, fuel);
          match child.r
          case Err(e) => Applied(Err(e), child.st)
          case Ok(v) =>
            var acc1 := acc + [v];
            NewChildren(u, es, i + 1, cls, target, path, acc1, child.st.(heap := Attach(child.st.heap, target, path, Lst(acc1))), fuel)
  }

  /** One element of a child array: a new instance of `cls`, added to the heap and set from `fs`. */
  function NewChild(u: Upd, fs: seq<Field>, cls: string, st: UState, fuel: nat): (o: Applied<Value>)
    ensures |st.heap| <= |o.st.heap| && o.st.list == st.list
    ensures o.r.Ok? ==> |st.heap| < |o.st.heap|
    decreases fuel, 0
  {
    match u.env.newInstance(cls)
    case Err(e) => Applied(Err(e), st)
    case Ok(props) =>
      if fuel == 0 then Applied(Overflow(), st)
      else SetItem(u, fs, cls, Ref(|st.heap|), st.(heap := st.heap + [Bean(cls, props)]), fuel - 1)
  }

  /** One element of the child list: a new item is set from it and bound to the list. */
  lemma NewChildrenStep(u: Upd, es: seq<Value>, i: nat, cls: string, target: Value, path: string, acc: seq<Value>, st: UState, fuel: nat)
    requires i < |es| && es[i].Obj?
    ensures var child := NewChild(u, es[i].fields, cls, st, fuel);
      && (child.r.Err? ==> NewChildren(u, es, i, cls, target, path, acc, st, fuel) == Applied(Err(child.r.error), child.st))
      && (child.r.Ok? ==>
            NewChildren(u, es, i, cls, target, path, acc, st, fuel)
            == NewChildren(u, es, i + 1, cls, target, path, acc + [child.r.value],
                           child.st.(heap := Attach(child.st.heap, target, path, Lst(acc + [child.r.value]))), fuel))
  {
  }

  /** The element at i stops the child list before any item is made from it. */
  lemma NewChildrenStops(u: Upd, es: seq<Value>, i: nat, cls: string, target: Value, path: string, acc: seq<Value>, st: UState, fuel: nat)
    requires i < |es|
    ensures ArrayGet(es, i).Err? ==> NewChildren(u, es, i, cls, target, path, acc, st, fuel) == Applied(Err(ArrayGet(es, i).error), st)
    ensures ArrayGet(es, i).Ok? && ObjectCast(es[i]).Err? ==>
      NewChildren(u, es, i, cls, target, path, acc, st, fuel) == Applied(Err(ObjectCast(es[i]).error), st)
  {
  }

  /**
   * setItem binds the item before it sets anything: a first leaf attribute is written to
   * `item`, whatever was bound before.
   */
  lemma FirstLeafGoesToItem(u: Upd, attrs: seq<Field>, cls: string, item: Value, st: UState, fuel: nat)
    requires |attrs| > 0 && attrs[0].name !in u.childPaths.vals && !attrs[0].val.Arr?
    requires attrs[0].name in u.vb.vals && !u.env.readOnly(u.vb.vals[attrs[0].name]) && u.vb.vals[attrs[0].name] != u.itemPath
    requires item.Ref? && item.id < |st.heap|
    ensures var w := Write(st.heap, item, u.vb.vals[attrs[0].name], attrs[0].val);
      w.Ok? && SetItem(u, attrs, cls, item, st, fuel) == SetAttrs(u, attrs, 1, cls, item, st.(heap := w.value, current := item), fuel)
  {
    var st1 := st.(current := item);
    var a := SetAttr(u, attrs[0].name, attrs[0].val, cls, item, st1, fuel);
    assert a == SetLeaf(u, attrs[0].name, attrs[0].val, item, st1);
    assert a == Applied(Ok(item), st1.(heap := Write(st.heap, item, u.vb.vals[attrs[0].name], attrs[0].val).value));
  }

  /** A child attribute whose value is not an array is set to null. */
  lemma NonArrayChildIsCleared(u: Upd, a: string, value: Value, cls: string, item: Value, st: UState, fuel: nat)
    requires a in u.childPaths.vals && !value.Arr?
    ensures var o := SetAttr(u, a, value, cls, item, st, fuel);
      var w := Write(st.heap, st.current, u.childPaths.vals[a], Null);
      (o.r.Ok? <==> w.Ok?) && (w.Ok? ==> o == Applied(Ok(item), st.(heap := w.value)))
  {
  }

  /** A leaf array value is written as its first element, or as null when it is empty. */
  lemma LeafArrayGivesFirstElement(u: Upd, a: string, es: seq<Value>, item: Value, st: UState)
    requires a in u.vb.vals && !u.env.readOnly(u.vb.vals[a]) && u.vb.vals[a] != u.itemPath
    requires |es| > 0 ==> es[0] != Null
    ensures var o := SetLeaf(u, a, Arr(es), item, st);
      var w := Write(st.heap, st.current, u.vb.vals[a], if |es| == 0 then Null else es[0]);
      (o.r.Ok? <==> w.Ok?) && (w.Ok? ==> o == Applied(Ok(item), st.(heap := w.value)))
  {
  }

  /**
   * A child array gives one new item per element: the heap grows by at least one object
   * per element, and the list built holds one item per element.
   */
  lemma {:induction false} OneChildPerElement(u: Upd, es: seq<Value>, i: nat, cls: string, target: Value, path: string,
                                             acc: seq<Value>, st: UState, fuel: nat)
    requires i <= |es|
    ensures var o := NewChildren(u, es, i, cls, target, path, acc, st, fuel);
      o.r.Ok? ==> |o.st.heap| >= |st.heap| + |es| - i && o.r.value[..|acc|] == acc
    decreases |es| - i
  {
    var o := NewChildren(u, es, i, cls, target, path, acc, st, fuel);
    if i < |es| && o.r.Ok? {
      var child := NewChild(u, es[i].fields, cls, st, fuel);
      var acc1 := acc + [child.r.value];
      var st2 := child.st.(heap := Attach(child.st.heap, target, path, Lst(acc1)));
      assert o == NewChildren(u, es, i + 1, cls, target, path, acc1, st2, fuel);
      OneChildPerElement(u, es, i + 1, cls, target, path, acc1, st2, fuel);
      var r := o.r.value;
      assert r[..|acc|] == r[..|acc1|][..|acc|];
    }
  }

  /**
   * The list bound to a child attribute holds exactly the items built: it is bound again
   * after every element, so at the end it is the whole list.
   */
  lemma {:induction false} ChildListIsBound(u: Upd, es: seq<Value>, i: nat, cls: string, path: string,
                                           acc: seq<Value>, st: UState, fuel: nat, id: nat)
    requires i < |es| && id < |st.heap|
    ensures var o := NewChildren(u, es, i, cls, Ref(id), path, acc, st, fuel);
      o.r.Ok? ==> path in o.st.heap[id].props && o.st.heap[id].props[path] == Lst(o.r.value)
    decreases |es| - i
  {
    var o := NewChildren(u, es, i, cls, Ref(id), path, acc, st, fuel);
    if o.r.Ok? {
      var child := NewChild(u, es[i].fields, cls, st, fuel);
      var acc1 := acc + [child.r.value];
      var st2 := child.st.(heap := Attach(child.st.heap, Ref(id), path, Lst(acc1)));
      assert st2.heap[id].props[path] == Lst(acc1);
      if i + 1 < |es| {
        ChildListIsBound(u, es, i + 1, cls, path, acc1, st2, fuel, id);
      }
    }
  }

  // ---------------------------------------------------------------------------
  // The entries of a put

  /** The first position of `x` in the list, or -1 (List.indexOf). */
  function IndexIn(items: seq<Value>, x: Value): (r: int)
    ensures r == -1 <==> x !in items
    ensures r != -1 ==> 0 <= r < |items| && items[r] == x && x !in items[..r]
  {
    if |items| == 0 then -1
    else if items[0] == x then 0
    else
      var r := IndexIn(items[1..], x);
      assert r != -1 ==> items[1..][..r] == items[1..r + 1];
      if r == -1 then -1 else r + 1
  }

  /** List.remove(Object): the first occurrence of `x` is removed, if there is one. */
  function RemoveFirst(items: seq<Value>, x: Value): (r: seq<Value>)
    ensures x !in items ==> r == items
    ensures x in items ==> r == items[..IndexIn(items, x)] + items[IndexIn(items, x) + 1..]
  {
    var i := IndexIn(items, x);
    if i == -1 then items else items[..i] + items[i + 1..]
  }

  /** `"#{" + expression + "}"` of a callback parameter. */
  function Callback(p: Option<string>): string
    requires Given(p)
  {
    "#{" + p.value + "}"
  }

  /**
   * The insert of an entry: the onInsert callback gives the new item; when modelClass is
   * given a new instance set from the insert object replaces it. The target list must
   * exist; a non-null new item is appended.
   */
  function Insert(u: Upd, entry: seq<Field>, st: UState): (o: Applied<()>)
    ensures |st.heap| <= |o.st.heap|
    ensures o.st.list == st.list || (o.r.Ok? && Appends(st.list, o.st.list))
  {
    var iv := Opt(entry, "insert");
    if iv == Null then Applied(Ok(()), st)
    else match ObjectCast(iv)
      case Err(e) => Applied(Err(e), st)
      case Ok(ins) =>
        var n0 := if Given(u.slots.onInsert) then u.env.invoke(Callback(u.slots.onInsert), [iv]) else Ok(Null);
        match n0
        case Err(e) => Applied(Err(e), st)
        case Ok(item0) =>
          var n1 := if Given(u.slots.modelClass) then Created(u, ins, u.slots.modelClass.value, st) else Applied(Ok(item0), st);
          match n1.r
          case Err(e) => Applied(Err(e), n1.st)
          case Ok(item) => Appended(n1.st, item)
  }

  /** An entry without an insert changes nothing; an insert without a target list fails and leaves no list. */
  lemma InsertWithoutItemOrList(u: Upd, entry: seq<Field>, st: UState)
    ensures Opt(entry, "insert") == Null ==> Insert(u, entry, st) == Applied(Ok(()), st)
    ensures Opt(entry, "insert") != Null && st.list.None? ==> Insert(u, entry, st).r.Err? && Insert(u, entry, st).st.list.None?
  {
  }

  /** `after` is the list `before` with one more item, not null, at its end. */
  predicate Appends(before: Option<seq<Value>>, after: Option<seq<Value>>) {
    && before.Some? && after.Some?
    && |after.value| == |before.value| + 1 && after.value[..|before.value|] == before.value
    && after.value[|before.value|] != Null
  }

  /** A new instance of class `cls`, set from `attrs`. */
  function Created(u: Upd, attrs: seq<Field>, cls: string, st: UState): (o: Applied<Value>)
    ensures |st.heap| <= |o.st.heap| && o.st.list == st.list
  {
    if !u.env.forName(cls) then Applied(Fail(ClassNotFoundException, cls), st)
    else match u.env.newInstance(cls)
      case Err(e) => Applied(Err(e), st)
      case Ok(props) => SetItem(u, attrs, cls, Ref(|st.heap|), st.(heap := st.heap + [Bean(cls, props)]), u.stack)
  }

  /** The end of an insert: a null target list is an error; a non-null item is appended. */
  function Appended(st: UState, item: Value): (o: Applied<()>)
    ensures st.list.None? <==> o.r.Err?
    ensures st.list.Some? && item != Null ==> o.st.list == Some(st.list.value + [item])
    ensures st.list.Some? && item == Null ==> o.st.list == st.list
    ensures o.st.heap == st.heap && o.st.current == st.current
  {
    match st.list
    case None => Applied(Fail(IllegalArgumentException, "Please set the target list before dropping items on it."), st)
    case Some(items) => Applied(Ok(()), if item != Null then st.(list := Some(items + [item])) else st)
  }

  /**
   * The set of an entry: for each key of the set object in order, the item is found, the
   * onUpdate callback is invoked, and unless autoUpdate forbids it the item is set from its
   * attributes and, when it is in the target list, replaces itself there.
   */
  function SetEntries(u: Upd, sets: seq<Field>, j: nat, st: UState): (o: Applied<()>)
    requires j <= |sets|
    ensures |st.heap| <= |o.st.heap|
    ensures o.st.list.Some? <==> st.list.Some?
    ensures st.list.Some? ==> |o.st.list.value| == |st.list.value|
    ensures !AutoUpdates(u.slots) ==> o.st.heap == st.heap && o.st.list == st.list
    decreases |sets| - j
  {
    if j == |sets| then Applied(Ok(()), st)
    else match EntryGet(sets[j])
      case Err(e) => Applied(Err(e), st)
      case Ok(av) =>
        match ObjectCast(av)
        case Err(e) => Applied(Err(e), st)
        case Ok(attrs) =>
          var found := FindTop(u, sets[j].name, st);
          match found.r
          case Err(e) => Applied(Err(e), found.st)
          case Ok(prev) =>
            var a := Update(u, attrs, prev, found.st);
            match a.r
            case Err(e) => Applied(Err(e), a.st)
            case Ok(_) => SetEntries(u, sets, j + 1, a.st)
  }

  /** One key of a set, once its item `prev` was looked up. */
  function Update(u: Upd, attrs: seq<Field>, prev: Value, st: UState): (o: Applied<()>)
    ensures !AutoUpdates(u.slots) ==> o.st == st
    ensures |st.heap| <= |o.st.heap|
    ensures st.list.None? ==> o.st.list == st.list
    ensures st.list.Some? ==> o.st.list.Some? && |o.st.list.value| == |st.list.value|
  {
    var cb := if Given(u.slots.onUpdate) then u.env.invoke(Callback(u.slots.onUpdate), [prev, Obj(attrs)]) else Ok(Null);
    if cb.Err? then Applied(Err(cb.error), st)
    else if !AutoUpdates(u.slots) then Applied(Ok(()), st)
    else match st.list
      case None => Applied(Fail(NullPointerException, "list.indexOf on null"), st)
      case Some(items) =>
        var cls :=
          if u.slots.modelClass.None? || u.slots.modelClass.value == "" then ClassOf(st.heap, prev)
          else if u.env.forName(u.slots.modelClass.value) then Ok(u.slots.modelClass.value)
          else Fail(ClassNotFoundException, u.slots.modelClass.value);
        match cls
        case Err(e) => Applied(Err(e), st)
        case Ok(c) => UpdateItem(u, attrs, c, prev, items, st)
  }

  /** The item `prev` of class `cls` is set from `attrs`; the first position of `prev` in `items` gets the item set. */
  function UpdateItem(u: Upd, attrs: seq<Field>, cls: string, prev: Value, items: seq<Value>, st: UState): (o: Applied<()>)
    requires st.list == Some(items)
    ensures |st.heap| <= |o.st.heap|
    ensures o.st.list.Some? && |o.st.list.value| == |items|
  {
    var index := IndexIn(items, prev);
    var s := SetItem(u, attrs, cls, prev, st, u.stack);
    match s.r
    case Err(e) => Applied(Err(e), s.st)
    case Ok(o) => Applied(Ok(()), if index == -1 then s.st else s.st.(list := Some(items[index := o])))
  }

  /** A set changes at most one position of the target list: the first position of its item. */
  lemma UpdateKeepsOtherPositions(u: Upd, attrs: seq<Field>, prev: Value, st: UState)
    requires st.list.Some?
    ensures var o := Update(u, attrs, prev, st);
      forall n :: 0 <= n < |st.list.value| && n != IndexIn(st.list.value, prev) ==> o.st.list.value[n] == st.list.value[n]
  {
  }

  /** A set whose item is not in the target list leaves the list as it was. */
  lemma UpdateOutsideListKeepsList(u: Upd, attrs: seq<Field>, prev: Value, st: UState)
    requires st.list.Some? && prev !in st.list.value
    ensures Update(u, attrs, prev, st).st.list == st.list
  {
  }

  /** A set applied to an item of the target list replaces that item's first position by the item set. */
  lemma UpdateInListReplaces(u: Upd, attrs: seq<Field>, prev: Value, st: UState, c: string)
    requires st.list.Some? && prev in st.list.value && AutoUpdates(u.slots)
    requires !Given(u.slots.onUpdate) || u.env.invoke(Callback(u.slots.onUpdate), [prev, Obj(attrs)]).Ok?
    requires u.slots.modelClass.None? || u.slots.modelClass.value == ""
    requires ClassOf(st.heap, prev) == Ok(c)
    requires SetItem(u, attrs, c, prev, st, u.stack).r.Ok?
    ensures var s := SetItem(u, attrs, c, prev, st, u.stack);
      var items := st.list.value;
      Update(u, attrs, prev, st) == Applied(Ok(()), s.st.(list := Some(items[IndexIn(items, prev) := s.r.value])))
  {
    var items := st.list.value;
    assert Update(u, attrs, prev, st) == UpdateItem(u, attrs, c, prev, items, st);
  }

  /**
   * The delete of an entry: the item is found, the onDelete callback is invoked, and unless
   * autoDelete forbids it the item's first occurrence is removed from the target list.
   */
  function Delete(u: Upd, entry: seq<Field>, st: UState): (o: Applied<()>)
    ensures o.st.heap == st.heap
    ensures !AutoDeletes(u.slots) ==> o.st.list == st.list
    ensures o.st.list.Some? <==> st.list.Some?
    ensures st.list.Some? ==> |st.list.value| - 1 <= |o.st.list.value| <= |st.list.value|
  {
    var dv := Opt(entry, "delete");
    if dv == Null then Applied(Ok(()), st)
    else if !dv.Str? then Applied(Fail(ClassCastException, "cannot be cast to java.lang.String"), st)
    else
      var found := FindTop(u, dv.s, st);
      match found.r
      case Err(e) => Applied(Err(e), found.st)
      case Ok(item) =>
        var cb := if Given(u.slots.onDelete) then u.env.invoke(Callback(u.slots.onDelete), [item]) else Ok(Null);
        if cb.Err? then Applied(Err(cb.error), found.st)
        else if !AutoDeletes(u.slots) then Applied(Ok(()), found.st)
        else match found.st.list
          case None => Applied(Fail(NullPointerException, "list.remove on null"), found.st)
          case Some(items) => Applied(Ok(()), found.st.(list := Some(RemoveFirst(items, item))))
  }

  /**
   * An entry without a delete changes nothing; a delete that is not a string is a
   * ClassCastException; a delete that succeeds with autoDelete removes the first
   * occurrence of the item found from the target list.
   */
  lemma DeleteCases(u: Upd, entry: seq<Field>, st: UState)
    ensures Opt(entry, "delete") == Null ==> Delete(u, entry, st) == Applied(Ok(()), st)
    ensures var o := Delete(u, entry, st);
      Opt(entry, "delete") != Null && !Opt(entry, "delete").Str? ==> o.r.Err? && o.r.error.kind == ClassCastException
    ensures var o := Delete(u, entry, st);
      Opt(entry, "delete").Str? && AutoDeletes(u.slots) && o.r.Ok? ==>
      var found := FindTop(u, Opt(entry, "delete").s, st);
      st.list.Some? && found.r.Ok? && o.st.list == Some(RemoveFirst(st.list.value, found.r.value))
  {
  }

  /** One entry of the updates array: its insert, then its set, then its delete. */
  function Entry(u: Upd, entry: seq<Field>, st: UState): (o: Applied<()>)
    ensures |st.heap| <= |o.st.heap|
    ensures o.st.list.Some? <==> st.list.Some?
  {
    var i := Insert(u, entry, st);
    if i.r.Err? then i
    else
      var sv := Opt(entry, "set");
      var s :=
        if sv == Null then Applied(Ok(()), i.st)
        else if sv.Obj? then SetEntries(u, sv.fields, 0, i.st)
        else Applied(Fail(ClassCastException, "cannot be cast to org.j4fry.json.JSONObject"), i.st);
      if s.r.Err? then s
      else Delete(u, entry, s.st)
  }

  /** An entry adds at most one item to the target list and removes at most one. */
  lemma EntryChangesLengthByOne(u: Upd, entry: seq<Field>, st: UState)
    requires st.list.Some?
    ensures var o := Entry(u, entry, st);
      o.st.list.Some? && |st.list.value| - 1 <= |o.st.list.value| <= |st.list.value| + 1
  {
  }

  /** The entries es[i..] in order; the first exception stops them, and what was applied stays applied. */
  function Entries(u: Upd, es: seq<Value>, i: nat, st: UState): (o: Applied<()>)
    requires i <= |es|
    ensures |st.heap| <= |o.st.heap|
    ensures o.st.list.Some? <==> st.list.Some?
    decreases |es| - i
  {
    if i == |es| then Applied(Ok(()), st)
    else match ArrayGet(es, i)
      case Err(e) => Applied(Err(e), st)
      case Ok(x) =>
        match ObjectCast(x)
        case Err(e) => Applied(Err(e), st)
        case Ok(entry) =>
          var a := Entry(u, entry, st);
          if a.r.Err? then a else Entries(u, es, i + 1, a.st)
  }

  /** The entries succeed only when every one of them is a JSON object. */
  lemma EntriesAreObjects(u: Upd, es: seq<Value>, i: nat, st: UState)
    requires i <= |es|
    ensures Entries(u, es, i, st).r.Ok? ==> forall n :: i <= n < |es| ==> es[n].Obj?
  {
    if Entries(u, es, i, st).r.Ok? {
      EntriesNeedObjects(u, es, i, st);
      ObjectsFromMeans(es, i);
    }
  }

  /** es[i..] are all JSON objects. */
  predicate ObjectsFrom(es: seq<Value>, i: nat)
    requires i <= |es|
    decreases |es| - i
  {
    i == |es| || (es[i].Obj? && ObjectsFrom(es, i + 1))
  }

  /** ObjectsFrom is the pointwise statement. */
  lemma {:induction false} ObjectsFromMeans(es: seq<Value>, i: nat)
    requires i <= |es| && ObjectsFrom(es, i)
    ensures forall n :: i <= n < |es| ==> es[n].Obj?
    decreases |es| - i
  {
    if i < |es| {
      ObjectsFromMeans(es, i + 1);
    }
  }

  lemma ObjectsFromStep(es: seq<Value>, i: nat)
    requires i < |es| && es[i].Obj? && ObjectsFrom(es, i + 1)
    ensures ObjectsFrom(es, i)
  {
  }

  /** Entries that succeed from i saw only objects from i on. */
  lemma {:induction false} EntriesNeedObjects(u: Upd, es: seq<Value>, i: nat, st: UState)
    requires i <= |es| && Entries(u, es, i, st).r.Ok?
    ensures ObjectsFrom(es, i)
    decreases |es| - i
  {
    if i < |es| {
      var next := EntriesNext(u, es, i, st);
      EntriesNeedObjects(u, es, i + 1, next);
      ObjectsFromStep(es, i);
    }
  }

  /** When Entries succeeds from i, entry i is an object and Entries succeeds from i + 1 on the state after it. */
  lemma EntriesNext(u: Upd, es: seq<Value>, i: nat, st: UState) returns (next: UState)
    requires i < |es| && Entries(u, es, i, st).r.Ok?
    ensures es[i].Obj? && Entries(u, es, i + 1, next).r.Ok?
  {
    if es[i].Obj? {
      next := Entry(u, es[i].fields, st).st;
    } else {
      next := st;
    }
  }

  // ---------------------------------------------------------------------------
  // put

  /** The placeholder the store uses for the empty key, replaced by the item expression. */
  const EmptyKey := "__dojoFacelets_emtpyKey__"

  /** What put changes outside the state of an update: the structure cache and the messages. */
  datatype Outcome = Outcome(ret: Value, st: UState, structures: map<string, seq<Field>>, messages: seq<Option<string>>)

  /**
   * put(structure, updates): nothing happens unless `updates` is a JSON array. Otherwise the
   * descriptor, with the empty-key placeholder replaced by the item expression, gives the
   * leaf and child bindings, and the entries are applied in order. Success returns
   * `updates`; an exception stops the entries, is reported as one message with its text,
   * and null is returned; what was applied before it stays applied.
   */
  function PutOutcome(env: Env, slots: Slots, structures: map<string, seq<Field>>, structure: Value, updates: Value,
               st: UState, messages: seq<Option<string>>, stack: nat): (o: Outcome)
    ensures !updates.Arr? ==> o == Outcome(Null, st, structures, messages)
    ensures o.ret == Null || o.ret == updates
    ensures updates.Arr? && o.ret == Null ==> |o.messages| == |messages| + 1 && o.messages[..|messages|] == messages
    ensures o.ret == updates ==> o.messages == messages
    ensures structures.Keys <= o.structures.Keys
  {
    if !updates.Arr? then Outcome(Null, st, structures, messages)
    else
      var a := Apply(env, slots, structures, structure, updates.elems, st, stack);
      match a.0.r
      case Ok(_) => Outcome(updates, a.0.st, a.1, messages)
      case Err(e) => Outcome(Null, a.0.st, a.1, messages + [e.message])
  }

  /** The body of put's try block: the descriptor is read, and the entries applied. */
  function Apply(env: Env, slots: Slots, structures: map<string, seq<Field>>, structure: Value, es: seq<Value>,
                 st: UState, stack: nat): (r: (Applied<()>, map<string, seq<Field>>))
    ensures structures.Keys <= r.1.Keys
    ensures structure == Null ==> r == (Applied(Fail(NullPointerException, "replace on null"), st), structures)
    ensures structure != Null && !structure.Str? ==>
      r.0.r.Err? && r.0.r.error.kind == ClassCastException && r.0.st == st && r.1 == structures
    ensures |st.heap| <= |r.0.st.heap| && (r.0.st.list.Some? <==> st.list.Some?)
  {
    if structure == Null then (Applied(Fail(NullPointerException, "replace on null"), st), structures)
    else if !structure.Str? then (Applied(Fail(ClassCastException, "cannot be cast to java.lang.String"), st), structures)
    else
      var itemPath := ItemPath(slots.itemVar);
      var text := ReplaceAll(structure.s, EmptyKey, itemPath);
      var out := Sinks(Some(EmptyMap()), Some(EmptyMap()), None, None, None);
      var tk := TokenizeSpec(env, structures, Some(text), out);
      if tk.step.err.Some? then (Applied(Err(tk.step.err.value), st), tk.cache)
      else
        var u := Upd(env, slots, itemPath, tk.step.out.leaves.value, tk.step.out.children.value, stack);
        (Entries(u, es, 0, st), tk.cache)
  }

  // ---------------------------------------------------------------------------
  // Properties of the entries

  /** An insert adds at most one item, at the end, and only a non-null one. */
  lemma InsertAppendsOne(u: Upd, entry: seq<Field>, st: UState)
    requires Insert(u, entry, st).r.Ok?
    ensures var l := Insert(u, entry, st).st.list;
      l == st.list || (st.list.Some? && exists x :: x != Null && l == Some(st.list.value + [x]))
  {
    var iv := Opt(entry, "insert");
    if iv != Null {
      var n0 := if Given(u.slots.onInsert) then u.env.invoke(Callback(u.slots.onInsert), [iv]) else Ok(Null);
      var n1 := if Given(u.slots.modelClass) then Created(u, iv.fields, u.slots.modelClass.value, st) else Applied(Ok(n0.value), st);
      var item := n1.r.value;
      if item != Null {
        assert Insert(u, entry, st).st.list == Some(st.list.value + [item]);
      }
    }
  }

  /** With modelClass given, the item inserted is the new instance, whatever onInsert returned. */
  lemma ModelClassOverridesCallback(u: Upd, entry: seq<Field>, st: UState)
    requires Opt(entry, "insert").Obj? && Given(u.slots.modelClass) && st.list.Some?
    requires !Given(u.slots.onInsert) || u.env.invoke(Callback(u.slots.onInsert), [Opt(entry, "insert")]).Ok?
    ensures var c := Created(u, Opt(entry, "insert").fields, u.slots.modelClass.value, st);
      c.r.Ok? && c.r.value != Null ==> Insert(u, entry, st).st.list == Some(st.list.value + [c.r.value])
  {
  }

  /** With neither onInsert nor modelClass, an insert leaves the list alone, and fails on a null list. */
  lemma InsertWithoutSource(u: Upd, entry: seq<Field>, st: UState)
    requires Opt(entry, "insert").Obj? && !Given(u.slots.onInsert) && !Given(u.slots.modelClass)
    ensures Insert(u, entry, st) == if st.list.None?
      then Applied(Fail(IllegalArgumentException, "Please set the target list before dropping items on it."), st)
      else Applied(Ok(()), st)
  {
  }

  /** A set that autoUpdate forbids changes neither the model objects nor the list. */
  lemma ForbiddenSetChangesNothing(u: Upd, attrs: seq<Field>, prev: Value, st: UState)
    requires !AutoUpdates(u.slots)
    ensures Update(u, attrs, prev, st).st == st
  {
  }

  /**
   * Deleting a key held by exactly one item of a flat list without null items removes that
   * item; a second delete of the same key then finds nothing and removes nothing.
   */
  lemma DeleteTwiceRemovesOnce(u: Upd, entry: seq<Field>, st: UState, p: nat)
    requires |u.childPaths.keys| == 0 && st.list.Some? && AutoDeletes(u.slots)
    requires Opt(entry, "delete").Str? && !Given(u.slots.onDelete)
    requires var items := st.list.value;
      p < |items| && Null !in items
      && forall q :: 0 <= q < |items| ==> (KeyIs(u, Opt(entry, "delete").s, st.heap, items[q]) <==> q == p)
    ensures var once := Delete(u, entry, st);
      once.r.Ok? && once.st.list == Some(st.list.value[..p] + st.list.value[p + 1..])
      && Delete(u, entry, once.st).st.list == once.st.list
  {
    var k := Opt(entry, "delete").s;
    var items := st.list.value;
    FlatFindIsFirstMatch(u, k, items, 0, st, u.stack);
    assert KeyIs(u, k, st.heap, items[p]);
    var f := FirstWithKey(u, k, st.heap, items, 0);
    assert f != -1 && KeyIs(u, k, st.heap, items[f]);
    assert f == p;
    var x := items[p];
    assert IndexIn(items, x) == p by {
      var i := IndexIn(items, x);
      assert KeyIs(u, k, st.heap, items[i]);
    }
    var once := Delete(u, entry, st);
    var rest := items[..p] + items[p + 1..];
    assert once.st.list == Some(rest);
    forall q | 0 <= q < |rest|
      ensures !KeyIs(u, k, st.heap, rest[q])
    {
      if q < p {
        assert rest[q] == items[q];
      } else {
        assert rest[q] == items[q + 1];
      }
    }
    FlatFindIsFirstMatch(u, k, rest, 0, once.st, u.stack);
    assert Null !in rest;
  }

  // ---------------------------------------------------------------------------
  // The bean

  /** A StoreUpdateMap instance: its parameters, the target list among them. */
  class StoreUpdateMap {
    var list: Option<seq<Value>>
    var itemVar: Option<string>
    var key: Option<string>
    var onInsert: Option<string>
    var modelClass: Option<string>
    var onUpdate: Option<string>
    var autoUpdate: Option<string>
    var onDelete: Option<string>
    var autoDelete: Option<string>
    var filled: nat

    constructor ()
      ensures Params() == Fresh()
    {
      list, itemVar, key, onInsert, modelClass := None, None, None, None, None;
      onUpdate, autoUpdate, onDelete, autoDelete := None, None, None, None;
      filled := 0;
    }

    function Params(): Slots
      reads this
    {
      Slots(list, itemVar, key, onInsert, modelClass, onUpdate, autoUpdate, onDelete, autoDelete, filled)
    }

    /** What an update changes: the model objects, the item binding and the target list. */
    function Now(ctx: FacesContext): UState
      reads this, ctx
    {
      UState(ctx.heap, ctx.current, list)
    }

    /** get: fills the next parameter and returns this (true), or returns null (false). */
    method Get(o: Value) returns (r: Result<bool>)
      modifies this
      ensures (r, Params()) == GetStep(old(Params()), o)
    {
      if filled == 0 {
        if o.Lst? {
          list := Some(o.items);
        }
        filled := 1;
        return Ok(true);
      }
      if filled >= 9 {
        return Ok(false);
      }
      if filled == 1 {
        filled := 2;
        var v := CastString(o);
        if v.Err? {
          return Err(v.error);
        }
        itemVar := v.value;
        return Ok(true);
      }
      var v := CastString(o);
      if v.Err? {
        return Err(v.error);
      }
      if filled == 2 {
        key := v.value;
      } else if filled == 3 {
        onInsert := v.value;
      } else if filled == 4 {
        modelClass := v.value;
      } else if filled == 5 {
        onUpdate := v.value;
      } else if filled == 6 {
        autoUpdate := v.value;
      } else if filled == 7 {
        onDelete := v.value;
      } else {
        autoDelete := v.value;
      }
      filled := filled + 1;
      r := Ok(true);
    }

    /** getItem over a collection, recursing into the child collections of each item. */
    method GetItemIn(u: Upd, k: string, items: seq<Value>, ctx: FacesContext, fuel: nat) returns (r: Result<Value>)
      modifies ctx`current
      ensures Applied(r, Now(ctx)) == FindList(u, k, items, 0, old(Now(ctx)), fuel)
      decreases fuel
    {
      ghost var target := FindList(u, k, items, 0, Now(ctx), fuel);
      var i := 0;
      while i < |items|
        invariant 0 <= i <= |items|
        invariant FindList(u, k, items, i, Now(ctx), fuel) == target
      {
        ctx.current := items[i];
        if KeyIs(u, k, ctx.heap, items[i]) {
          return Ok(items[i]);
        }
        var j := 0;
        while j < |u.childPaths.keys|
          invariant 0 <= j <= |u.childPaths.keys|
          invariant FindChildren(u, k, items, i, j, Now(ctx), fuel) == target
        {
          var v := ChildOf(u, j, Now(ctx));
          if v != Null {
            if !v.Lst? {
              return Fail(ClassCastException, "cannot be cast to java.util.Collection");
            }
            if fuel == 0 {
              return Overflow();
            }
            var sub := GetItemIn(u, k, v.items, ctx, fuel - 1);
            if sub.Err? || sub.value != Null {
              return sub;
            }
          }
          j := j + 1;
        }
        i := i + 1;
      }
      r := Ok(Null);
    }

    /** getItem on the target list. */
    method GetItem(u: Upd, k: string, ctx: FacesContext) returns (r: Result<Value>)
      modifies ctx`current
      ensures Applied(r, Now(ctx)) == FindTop(u, k, old(Now(ctx)))
    {
      if list.None? {
        return Ok(Null);
      }
      r := GetItemIn(u, k, list.value, ctx, u.stack);
    }

    /** setItem: binds the item, then sets its attributes in order. */
    method SetItemOf(u: Upd, attrs: seq<Field>, cls: string, item: Value, ctx: FacesContext, fuel: nat) returns (r: Result<Value>)
      modifies ctx`heap, ctx`current
      ensures Applied(r, Now(ctx)) == SetItem(u, attrs, cls, item, old(Now(ctx)), fuel)
      decreases fuel, 4
    {
      ctx.current := item;
      ghost var target := SetAttrs(u, attrs, 0, cls, item, Now(ctx), fuel);
      var it := item;
      var j := 0;
      while j < |attrs|
        invariant 0 <= j <= |attrs|
        invariant SetAttrs(u, attrs, j, cls, it, Now(ctx), fuel) == target
      {
        var a := SetAttrOf(u, attrs[j].name, attrs[j].val, cls, it, ctx, fuel);
        if a.Err? {
          return Err(a.error);
        }
        it := a.value;
        j := j + 1;
      }
      r := Ok(it);
    }

    /** One attribute of setItem. */
    method SetAttrOf(u: Upd, a: string, value: Value, cls: string, item: Value, ctx: FacesContext, fuel: nat)
      returns (r: Result<Value>)
      modifies ctx`heap, ctx`current
      ensures Applied(r, Now(ctx)) == SetAttr(u, a, value, cls, item, old(Now(ctx)), fuel)
      decreases fuel, 2
    {
      if a in u.childPaths.vals {
        var path := u.childPaths.vals[a];
        var w := Write(ctx.heap, ctx.current, path, if value.Arr? then Lst([]) else Null);
        if w.Err? {
          return Err(w.error);
        }
        ctx.heap := w.value;
        if value.Arr? {
          var c := NewChildrenOf(u, value.elems, cls, ctx.current, path, ctx, fuel);
          if c.Err? {
            return Err(c.error);
          }
        }
        return Ok(item);
      }
      r := SetLeafOf(u, a, value, item, ctx);
    }

    /** A leaf attribute of setItem. */
    method SetLeafOf(u: Upd, a: string, value: Value, item: Value, ctx: FacesContext) returns (r: Result<Value>)
      modifies ctx`heap
      ensures Applied(r, Now(ctx)) == SetLeaf(u, a, value, item, old(Now(ctx)))
    {
      if !(a in u.vb.vals && !u.env.readOnly(u.vb.vals[a])) {
        return Ok(item);
      }
      var path := u.vb.vals[a];
      if path == u.itemPath {
        return Ok(value);
      }
      var x := if value.Arr? then (if |value.elems| == 0 then Ok(Null) else ArrayGet(value.elems, 0)) else Ok(value);
      if x.Err? {
        return Err(x.error);
      }
      var w := Write(ctx.heap, ctx.current, path, x.value);
      if w.Err? {
        return Err(w.error);
      }
      ctx.heap := w.value;
      r := Ok(item);
    }

    /** The new child list of a child attribute: one new item per element, the list bound to `path` of `target`. */
    method NewChildrenOf(u: Upd, es: seq<Value>, cls: string, target: Value, path: string, ctx: FacesContext, fuel: nat)
      returns (r: Result<seq<Value>>)
      modifies ctx`heap, ctx`current
      ensures Applied(r, Now(ctx)) == NewChildren(u, es, 0, cls, target, path, [], old(Now(ctx)), fuel)
      decreases fuel, 1
    {
      ghost var goal := NewChildren(u, es, 0, cls, target, path, [], Now(ctx), fuel);
      var acc := [];
      var i := 0;
      while i < |es|
        invariant 0 <= i <= |es|
        invariant NewChildren(u, es, i, cls, target, path, acc, Now(ctx), fuel) == goal
      {
        ghost var st0 := Now(ctx);
        NewChildrenStops(u, es, i, cls, target, path, acc, st0, fuel);
        var x := ArrayGet(es, i);
        if x.Err? {
          return Err(x.error);
        }
        var fs := ObjectCast(x.value);
        if fs.Err? {
          return Err(fs.error);
        }
        var child := NewChildOf(u, fs.value, cls, ctx, fuel);
        NewChildrenStep(u, es, i, cls, target, path, acc, st0, fuel);
        if child.Err? {
          return Err(child.error);
        }
        acc := acc + [child.value];
        ctx.heap := Attach(ctx.heap, target, path, Lst(acc));
        i := i + 1;
      }
      r := Ok(acc);
    }

    /** One element of a child array: a new instance, appended to the heap and set from `fs`. */
    method NewChildOf(u: Upd, fs: seq<Field>, cls: string, ctx: FacesContext, fuel: nat) returns (r: Result<Value>)
      modifies ctx`heap, ctx`current
      ensures Applied(r, Now(ctx)) == NewChild(u, fs, cls, old(Now(ctx)), fuel)
      decreases fuel, 0
    {
      var props := u.env.newInstance(cls);
      if props.Err? {
        return Err(props.error);
      }
      if fuel == 0 {
        return Overflow();
      }
      var id := |ctx.heap|;
      ctx.heap := ctx.heap + [Bean(cls, props.value)];
      r := SetItemOf(u, fs, cls, Ref(id), ctx, fuel - 1);
    }

    /** A new instance of the model class, set from the insert object. */
    method CreatedOf(u: Upd, attrs: seq<Field>, cls: string, ctx: FacesContext) returns (r: Result<Value>)
      modifies ctx`heap, ctx`current
      ensures Applied(r, Now(ctx)) == Created(u, attrs, cls, old(Now(ctx)))
    {
      if !u.env.forName(cls) {
        return Fail(ClassNotFoundException, cls);
      }
      var props := u.env.newInstance(cls);
      if props.Err? {
        return Err(props.error);
      }
      var id := |ctx.heap|;
      ctx.heap := ctx.heap + [Bean(cls, props.value)];
      r := SetItemOf(u, attrs, cls, Ref(id), ctx, u.stack);
    }

    /** The insert of an entry. */
    method InsertOf(u: Upd, entry: seq<Field>, ctx: FacesContext) returns (r: Result<()>)
      modifies this`list, ctx`heap, ctx`current
      ensures Applied(r, Now(ctx)) == Insert(u, entry, old(Now(ctx)))
    {
      var iv := Opt(entry, "insert");
      if iv == Null {
        return Ok(());
      }
      var ins := ObjectCast(iv);
      if ins.Err? {
        return Err(ins.error);
      }
      var item := Null;
      if Given(u.slots.onInsert) {
        var n := u.env.invoke(Callback(u.slots.onInsert), [iv]);
        if n.Err? {
          return Err(n.error);
        }
        item := n.value;
      }
      if Given(u.slots.modelClass) {
        var n := CreatedOf(u, ins.value, u.slots.modelClass.value, ctx);
        if n.Err? {
          return Err(n.error);
        }
        item := n.value;
      }
      if list.None? {
        return Fail(IllegalArgumentException, "Please set the target list before dropping items on it.");
      }
      if item != Null {
        list := Some(list.value + [item]);
      }
      r := Ok(());
    }

    /** One key of a set. */
    method UpdateOf(u: Upd, attrs: seq<Field>, prev: Value, ctx: FacesContext) returns (r: Result<()>)
      modifies this`list, ctx`heap, ctx`current
      ensures Applied(r, Now(ctx)) == Update(u, attrs, prev, old(Now(ctx)))
    {
      if Given(u.slots.onUpdate) {
        var cb := u.env.invoke(Callback(u.slots.onUpdate), [prev, Obj(attrs)]);
        if cb.Err? {
          return Err(cb.error);
        }
      }
      if !AutoUpdates(u.slots) {
        return Ok(());
      }
      if list.None? {
        return Fail(NullPointerException, "list.indexOf on null");
      }
      var cls :=
        if u.slots.modelClass.None? || u.slots.modelClass.value == "" then ClassOf(ctx.heap, prev)
        else if u.env.forName(u.slots.modelClass.value) then Ok(u.slots.modelClass.value)
        else Fail(ClassNotFoundException, u.slots.modelClass.value);
      if cls.Err? {
        return Err(cls.error);
      }
      r := UpdateItemOf(u, attrs, cls.value, prev, ctx);
    }

    /** The item set from `attrs` takes the first position of `prev` in the target list. */
    method UpdateItemOf(u: Upd, attrs: seq<Field>, cls: string, prev: Value, ctx: FacesContext) returns (r: Result<()>)
      requires list.Some?
      modifies this`list, ctx`heap, ctx`current
      ensures Applied(r, Now(ctx)) == UpdateItem(u, attrs, cls, prev, old(list.value), old(Now(ctx)))
    {
      var items := list.value;
      var index := IndexIn(items, prev);
      var o := SetItemOf(u, attrs, cls, prev, ctx, u.stack);
      if o.Err? {
        return Err(o.error);
      }
      if index != -1 {
        list := Some(items[index := o.value]);
      }
      r := Ok(());
    }

    /** The set of an entry: one update per key, in order. */
    method SetEntriesOf(u: Upd, sets: seq<Field>, ctx: FacesContext) returns (r: Result<()>)
      modifies this`list, ctx`heap, ctx`current
      ensures Applied(r, Now(ctx)) == SetEntries(u, sets, 0, old(Now(ctx)))
    {
      ghost var goal := SetEntries(u, sets, 0, Now(ctx));
      var j := 0;
      while j < |sets|
        invariant 0 <= j <= |sets|
        invariant SetEntries(u, sets, j, Now(ctx)) == goal
      {
        var av := EntryGet(sets[j]);
        if av.Err? {
          return Err(av.error);
        }
        var attrs := ObjectCast(av.value);
        if attrs.Err? {
          return Err(attrs.error);
        }
        var prev := GetItem(u, sets[j].name, ctx);
        if prev.Err? {
          return Err(prev.error);
        }
        var a := UpdateOf(u, attrs.value, prev.value, ctx);
        if a.Err? {
          return Err(a.error);
        }
        j := j + 1;
      }
      r := Ok(());
    }

    /** The delete of an entry. */
    method DeleteOf(u: Upd, entry: seq<Field>, ctx: FacesContext) returns (r: Result<()>)
      modifies this`list, ctx`current
      ensures Applied(r, Now(ctx)) == Delete(u, entry, old(Now(ctx)))
    {
      var dv := Opt(entry, "delete");
      if dv == Null {
        return Ok(());
      }
      if !dv.Str? {
        return Fail(ClassCastException, "cannot be cast to java.lang.String");
      }
      var item := GetItem(u, dv.s, ctx);
      if item.Err? {
        return Err(item.error);
      }
      if Given(u.slots.onDelete) {
        var cb := u.env.invoke(Callback(u.slots.onDelete), [item.value]);
        if cb.Err? {
          return Err(cb.error);
        }
      }
      if !AutoDeletes(u.slots) {
        return Ok(());
      }
      if list.None? {
        return Fail(NullPointerException, "list.remove on null");
      }
      list := Some(RemoveFirst(list.value, item.value));
      r := Ok(());
    }

    /** The entries of an updates array, in order. */
    method EntriesOf(u: Upd, es: seq<Value>, ctx: FacesContext) returns (r: Result<()>)
      modifies this`list, ctx`heap, ctx`current
      ensures Applied(r, Now(ctx)) == Entries(u, es, 0, old(Now(ctx)))
    {
      ghost var goal := Entries(u, es, 0, Now(ctx));
      var i := 0;
      while i < |es|
        invariant 0 <= i <= |es|
        invariant Entries(u, es, i, Now(ctx)) == goal
      {
        var x := ArrayGet(es, i);
        if x.Err? {
          return Err(x.error);
        }
        var entry := ObjectCast(x.value);
        if entry.Err? {
          return Err(entry.error);
        }
        var a := InsertOf(u, entry.value, ctx);
        if a.Err? {
          return Err(a.error);
        }
        var sv := Opt(entry.value, "set");
        if sv != Null {
          if !sv.Obj? {
            return Fail(ClassCastException, "cannot be cast to org.j4fry.json.JSONObject");
          }
          a := SetEntriesOf(u, sv.fields, ctx);
          if a.Err? {
            return Err(a.error);
          }
        }
        a := DeleteOf(u, entry.value, ctx);
        if a.Err? {
          return Err(a.error);
        }
        i := i + 1;
      }
      r := Ok(());
    }

    /**
     * put: applies the updates to the target list and the model objects; an exception is
     * reported as a message and gives null.
     */
    method Put(ctx: FacesContext, structure: Value, updates: Value, structures: StructureCache, env: Env) returns (ret: Value)
      requires structures.Valid()
      modifies this`list, ctx`heap, ctx`current, ctx`messages, structures
      ensures structures.Valid()
      ensures Outcome(ret, Now(ctx), structures.cache, ctx.messages)
        == PutOutcome(env, old(Params()), old(structures.cache), structure, updates, old(Now(ctx)), old(ctx.messages), ctx.stack)
    {
      if !updates.Arr? {
        return Null;
      }
      var a := ApplyOf(ctx, structure, updates.elems, structures, env);
      if a.Err? {
        ctx.messages := ctx.messages + [a.error.message];
        return Null;
      }
      ret := updates;
    }

    /** The try block of put. */
    method ApplyOf(ctx: FacesContext, structure: Value, es: seq<Value>, structures: StructureCache, env: Env) returns (r: Result<()>)
      requires structures.Valid()
      modifies this`list, ctx`heap, ctx`current, structures
      ensures structures.Valid()
      ensures (Applied(r, Now(ctx)), structures.cache) == Apply(env, old(Params()), old(structures.cache), structure, es, old(Now(ctx)), ctx.stack)
    {
      if structure == Null {
        return Fail(NullPointerException, "replace on null");
      }
      if !structure.Str? {
        return Fail(ClassCastException, "cannot be cast to java.lang.String");
      }
      var itemPath := ItemPath(itemVar);
      var text := ReplaceAll(structure.s, EmptyKey, itemPath);
      var step := structures.Tokenize(Some(text), Sinks(Some(EmptyMap()), Some(EmptyMap()), None, None, None), env);
      if step.err.Some? {
        return Err(step.err.value);
      }
      var u := Upd(env, Params(), itemPath, step.out.leaves.value, step.out.children.value, ctx.stack);
      r := EntriesOf(u, es, ctx);
    }
  }
}
