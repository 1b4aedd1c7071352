/**
 * ListToMapMap: an EL map bean that collects three parameters, a list, the name of the item
 * variable and a key expression, and on a fourth `get` with a value expression returns an
 * insertion-ordered map from each element's key text to its value text.
 */
module ListMaps {
  import opened Values
  import opened Faces

  /** The fields of a ListToMapMap; null fields are the parameters still to come. */
  datatype ListMapState = ListMapState(list: Option<seq<Value>>, itemVar: Option<string>, key: Option<string>)

  /** The key put for an element: the text of its key expression, "" for null. */
  function EntryKey(heap: seq<Bean>, itemPath: string, keyPath: string, e: Value): string {
    var k := Read(heap, e, itemPath, keyPath);
    if k == Null then "" else JavaText(k)
  }

  /** The value put for an element: the text of its value expression, null for null. */
  function EntryValue(heap: seq<Bean>, itemPath: string, valuePath: string, e: Value): Option<string> {
    var v := Read(heap, e, itemPath, valuePath);
    if v == Null then None else Some(JavaText(v))
  }

  /** The key and value text of each element, in the list's order. */
  function Entries(heap: seq<Bean>, items: seq<Value>, itemPath: string, keyPath: string, valuePath: string)
    : (r: seq<(string, Option<string>)>)
    ensures |r| == |items|
    ensures forall i :: 0 <= i < |items| ==>
      r[i] == (EntryKey(heap, itemPath, keyPath, items[i]), EntryValue(heap, itemPath, valuePath, items[i]))
  {
    seq(|items|, i requires 0 <= i < |items| =>
      (EntryKey(heap, itemPath, keyPath, items[i]), EntryValue(heap, itemPath, valuePath, items[i])))
  }

  /** The LinkedHashMap that successive puts of the entries fill. */
  function Fill(entries: seq<(string, Option<string>)>): (r: SMap<Option<string>>)
    ensures r.Valid()
    ensures |r.keys| <= |entries|
    decreases |entries|
  {
    if |entries| == 0 then EmptyMap()
    else
      var m := Fill(entries[..|entries| - 1]);
      var e := entries[|entries| - 1];
      SetKeepsValid(m, e.0, e.1);
      m.Set(e.0, e.1)
  }

  /** get(o): the reply, the new state, and the value bound to the item variable afterwards. */
  function ListMapGet(heap: seq<Bean>, cur: Value, s: ListMapState, o: Value)
    : (r: (Result<Reply<SMap<Option<string>>>>, ListMapState, Value))
    ensures r.0.Ok? && r.0.value.Itself? ==> r.2 == cur
    ensures s.list.None? ==> r.0.Err? || r.0 == Ok(Itself)
    ensures s.list.None? && o == Null ==> r == (Ok(Itself), s, cur)
    ensures s.list.None? && o.Lst? ==> r == (Ok(Itself), s.(list := Some(o.items)), cur)
    ensures r.0.Err? ==> r.1 == s && r.2 == cur
    ensures s.list.Some? && s.itemVar.Some? && s.key.Some? ==> r.1 == s && (r.0.Err? || r.0.value.Returned?)
  {
    if s.list.None? then
      if o == Null then (Ok(Itself), s, cur)
      else if o.Lst? then (Ok(Itself), s.(list := Some(o.items)), cur)
      else (Fail(ClassCastException, "cannot be cast to java.util.List"), s, cur)
    else if s.itemVar.None? then
      match CastString(o)
      case Err(e) => (Err(e), s, cur)
      case Ok(v) => (Ok(Itself), s.(itemVar := v), cur)
    else if s.key.None? then
      match CastString(o)
      case Err(e) => (Err(e), s, cur)
      case Ok(k) => (Ok(Itself), s.(key := k), cur)
    else
      match CastString(o)
      case Err(e) => (Err(e), s, cur)
      case Ok(None) => (Fail(NullPointerException, "expression is null"), s, cur)
      case Ok(Some(valuePath)) =>
        var items := s.list.value;
        var m := Fill(Entries(heap, items, ItemPath(s.itemVar), s.key.value, valuePath));
        (Ok(Returned(m)), s, if |items| == 0 then cur else items[|items| - 1])
  }

  /** Filling one more entry is one more put. */
  lemma FillOneMore(entries: seq<(string, Option<string>)>, i: nat)
    requires i < |entries|
    ensures Fill(entries[..i + 1]) == Fill(entries[..i]).Set(entries[i].0, entries[i].1)
  {
    assert entries[..i + 1][..i] == entries[..i];
  }

  /** Every entry's key is in the map. */
  lemma {:induction false} EveryKeyIsFilled(entries: seq<(string, Option<string>)>)
    ensures forall i :: 0 <= i < |entries| ==> entries[i].0 in Fill(entries).vals
    decreases |entries|
  {
    if |entries| > 0 {
      var init := entries[..|entries| - 1];
      EveryKeyIsFilled(init);
      forall i | 0 <= i < |entries| - 1
        ensures entries[i] == init[i]
      {
      }
    }
  }

  /** Every key of the map is the key of an entry. */
  lemma {:induction false} EveryFilledKeyFromAnEntry(entries: seq<(string, Option<string>)>)
    ensures forall k :: k in Fill(entries).vals ==> exists i :: 0 <= i < |entries| && entries[i].0 == k
    decreases |entries|
  {
    if |entries| > 0 {
      var n := |entries| - 1;
      var init := entries[..n];
      EveryFilledKeyFromAnEntry(init);
      forall k | k in Fill(entries).vals
        ensures exists i :: 0 <= i < |entries| && entries[i].0 == k
      {
        if k != entries[n].0 {
          var i :| 0 <= i < n && init[i].0 == k;
          assert init[i] == entries[i];
        }
      }
    }
  }

  /** An entry whose key no later entry repeats has its value in the map: the last put wins. */
  lemma {:induction false} LastPutWins(entries: seq<(string, Option<string>)>, i: nat)
    requires i < |entries|
    requires forall j :: i < j < |entries| ==> entries[j].0 != entries[i].0
    ensures entries[i].0 in Fill(entries).vals && Fill(entries).vals[entries[i].0] == entries[i].1
    decreases |entries|
  {
    var n := |entries| - 1;
    if i < n {
      var init := entries[..n];
      assert init[i] == entries[i];
      forall j | i < j < n
        ensures init[j].0 != init[i].0
      {
        assert init[j] == entries[j];
      }
      LastPutWins(init, i);
    }
  }

  /**
   * Keys stay in the order of their first put: the entry that first puts the key at position
   * b comes after an entry putting the key at position a.
   */
  lemma {:induction false} KeysInFirstPutOrder(entries: seq<(string, Option<string>)>, a: nat, b: nat)
    requires a < b < |Fill(entries).keys|
    ensures exists j :: FirstPut(entries, j, Fill(entries).keys[b]) && PutBefore(entries, j, Fill(entries).keys[a])
    decreases |entries|
  {
    var n := |entries| - 1;
    var init := entries[..n];
    var ks, ks0 := Fill(entries).keys, Fill(init).keys;
    assert ks == ks0 || ks == ks0 + [entries[n].0];
    if b < |ks0| {
      KeysInFirstPutOrder(init, a, b);
      assert ks[a] == ks0[a] && ks[b] == ks0[b];
      var j :| FirstPut(init, j, ks0[b]) && PutBefore(init, j, ks0[a]);
      FirstPutInPrefix(entries, n, j, ks0[b]);
      PutBeforeInPrefix(entries, n, j, ks0[a]);
    } else {
      NewKeyIsFirstPut(entries);
      StoredKeyFromEntry(init, a);
      var i :| 0 <= i < n && init[i].0 == ks0[a];
      assert entries[i] == init[i];
      assert PutBefore(entries, n, ks[a]);
    }
  }

  /** Some entry before j puts key k. */
  ghost predicate PutBefore(entries: seq<(string, Option<string>)>, j: int, k: string) {
    exists i :: 0 <= i < j && i < |entries| && entries[i].0 == k
  }

  /** A put before j in a prefix is one in the whole sequence. */
  lemma PutBeforeInPrefix(entries: seq<(string, Option<string>)>, n: nat, j: int, k: string)
    requires n <= |entries| && PutBefore(entries[..n], j, k)
    ensures PutBefore(entries, j, k)
  {
    var i :| 0 <= i < j && i < n && entries[..n][i].0 == k;
    assert entries[i] == entries[..n][i];
  }

  /** Entry j is the first to put key k. */
  ghost predicate FirstPut(entries: seq<(string, Option<string>)>, j: int, k: string) {
    0 <= j < |entries| && entries[j].0 == k && forall l :: 0 <= l < j ==> entries[l].0 != k
  }

  /** A first put in a prefix is a first put in the whole sequence. */
  lemma FirstPutInPrefix(entries: seq<(string, Option<string>)>, n: nat, j: int, k: string)
    requires n <= |entries| && FirstPut(entries[..n], j, k)
    ensures FirstPut(entries, j, k)
  {
    forall l | 0 <= l < j
      ensures entries[l].0 != k
    {
      assert entries[..n][l] == entries[l];
    }
  }

  /** When the last entry adds a key, it is that key's first put. */
  lemma NewKeyIsFirstPut(entries: seq<(string, Option<string>)>)
    requires |entries| > 0
    requires |Fill(entries).keys| > |Fill(entries[..|entries| - 1]).keys|
    ensures FirstPut(entries, |entries| - 1, entries[|entries| - 1].0)
    ensures Fill(entries).keys[|Fill(entries).keys| - 1] == entries[|entries| - 1].0
  {
    var n := |entries| - 1;
    var init := entries[..n];
    EveryKeyIsFilled(init);
    forall l | 0 <= l < n
      ensures entries[l].0 != entries[n].0
    {
      assert init[l] == entries[l];
    }
  }

  /** A key of the key list is the key of an entry. */
  lemma StoredKeyFromEntry(entries: seq<(string, Option<string>)>, a: nat)
    requires a < |Fill(entries).keys|
    ensures exists i :: 0 <= i < |entries| && entries[i].0 == Fill(entries).keys[a]
  {
    assert Fill(entries).keys[a] in Fill(entries).vals;
    EveryFilledKeyFromAnEntry(entries);
  }

  /** A fresh bean given the list, the variable, the key and the value expression returns the map. */
  lemma FourParameters(heap: seq<Bean>, cur: Value, items: seq<Value>, itemVar: string, keyPath: string, valuePath: string)
    ensures var s0 := ListMapState(None, None, None);
      var g1 := ListMapGet(heap, cur, s0, Lst(items));
      var g2 := ListMapGet(heap, g1.2, g1.1, Str(itemVar));
      var g3 := ListMapGet(heap, g2.2, g2.1, Str(keyPath));
      var g4 := ListMapGet(heap, g3.2, g3.1, Str(valuePath));
      && g1.0 == Ok(Itself) && g2.0 == Ok(Itself) && g3.0 == Ok(Itself)
      && g4.0 == Ok(Returned(Fill(Entries(heap, items, ItemPath(Some(itemVar)), keyPath, valuePath))))
  {
  }

  class ListToMapMap {
    var list: Option<seq<Value>>
    var itemVar: Option<string>
    var key: Option<string>

    constructor ()
      ensures State() == ListMapState(None, None, None)
    {
      list, itemVar, key := None, None, None;
    }

    function State(): ListMapState
      reads this
    {
      ListMapState(list, itemVar, key)
    }

    /** ListToMapMap.get; the loop binds each element to the item variable in turn. */
    method Get(ctx: FacesContext, o: Value) returns (r: Result<Reply<SMap<Option<string>>>>)
      modifies this, ctx`current
      ensures (r, State(), ctx.current) == ListMapGet(ctx.heap, old(ctx.current), old(State()), o)
    {
      if list.None? {
        if o == Null {
          return Ok(Itself);
        }
        if !o.Lst? {
          return Fail(ClassCastException, "cannot be cast to java.util.List");
        }
        list := Some(o.items);
        return Ok(Itself);
      }
      var cast := CastString(o);
      if cast.Err? {
        return Err(cast.error);
      }
      if itemVar.None? {
        itemVar := cast.value;
        return Ok(Itself);
      }
      if key.None? {
        key := cast.value;
        return Ok(Itself);
      }
      if cast.value.None? {
        return Fail(NullPointerException, "expression is null");
      }
      var result := Collect(ctx, list.value, ItemPath(itemVar), key.value, cast.value.value);
      r := Ok(Returned(result));
    }
  
    /** The loop of get: each element bound in turn, its key and value text put into the map. */
    method Collect(ctx: FacesContext, items: seq<Value>, itemPath: string, keyPath: string, valuePath: string)
      returns (result: SMap<Option<string>>)
      modifies ctx`current
      ensures result == Fill(Entries(ctx.heap, items, itemPath, keyPath, valuePath))
      ensures ctx.current == if |items| == 0 then old(ctx.current) else items[|items| - 1]
    {
      result := EmptyMap();
      var i := 0;
      while i < |items|
        invariant 0 <= i <= |items|
        invariant result == Fill(Entries(ctx.heap, items, itemPath, keyPath, valuePath)[..i])
        invariant ctx.current == if i == 0 then old(ctx.current) else items[i - 1]
      {
        ctx.current := items[i];
        var k := Read(ctx.heap, ctx.current, itemPath, keyPath);
        var v := Read(ctx.heap, ctx.current, itemPath, valuePath);
        FillOneMore(Entries(ctx.heap, items, itemPath, keyPath, valuePath), i);
        result := result.Set(if k == Null then "" else JavaText(k), if v == Null then None else Some(JavaText(v)));
        i := i + 1;
      }
      assert Entries(ctx.heap, items, itemPath, keyPath, valuePath)[..i] == Entries(ctx.heap, items, itemPath, keyPath, valuePath);
    }
  }
}
