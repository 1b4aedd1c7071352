/**
 * ComboBoxStoreMap: an EL map bean that collects a list and the name of the item variable,
 * and on a third `get` with a key expression returns the JSON text of a combo box store: an
 * array holding one object {"name": ...} per element, the key expression's value for it.
 */
module ComboStores {
  import opened Values
  import opened Faces

  /** The fields of a ComboBoxStoreMap. */
  datatype ComboState = ComboState(
    list: Option<seq<Value>>, setList: bool, itemVar: Option<string>, setVar: bool, key: Option<string>)

  /** The key that stands for the item itself. */
  const KeyUndefined := "dojofaces_key_undefined"

  /** The one key of a store entry. */
  const NameKey := "name"

  /** The store entry of one element: new JSONObject({"name": value}). */
  function NameObject(heap: seq<Bean>, itemPath: string, keyPath: string, item: Value): Value {
    Obj([Field(NameKey, Read(heap, item, itemPath, keyPath))])
  }

  /** The store entries of the elements, in the list's order. */
  function NameObjects(heap: seq<Bean>, items: seq<Value>, itemPath: string, keyPath: string): (r: seq<Value>)
    ensures |r| == |items|
    ensures forall i :: 0 <= i < |items| ==> r[i] == NameObject(heap, itemPath, keyPath, items[i])
  {
    seq(|items|, i requires 0 <= i < |items| => NameObject(heap, itemPath, keyPath, items[i]))
  }

  /** The store text: the JSON array of the entries, "[]" without a list. */
  function StoreText(heap: seq<Bean>, list: Option<seq<Value>>, itemPath: string, keyPath: string): string {
    match list
    case None => "[]"
    case Some(items) => JsonText(Arr(NameObjects(heap, items, itemPath, keyPath)))
  }

  /** get(o): the reply, the new state, and the value bound to the item variable afterwards. */
  function ComboGet(heap: seq<Bean>, cur: Value, s: ComboState, o: Value): (r: (Result<Reply<string>>, ComboState, Value))
    ensures !s.setList ==> r.0 == Ok(Itself) && r.1.setList && r.1.list == (if o.Lst? then Some(o.items) else s.list)
    ensures s.setList && !s.setVar ==> r.1.setVar && (r.0.Ok? <==> o == Null || o.Str?)
    ensures r.0.Ok? && r.0.value.Itself? ==> r.2 == cur
    ensures s.setList && s.setVar ==> r.1.list == s.list && r.1.itemVar == s.itemVar
    ensures s.setList && s.setVar && o.Str? ==> r.0 == Ok(Returned(StoreText(heap, s.list, ItemPath(s.itemVar),
      if o.s == KeyUndefined then ItemPath(s.itemVar) else o.s)))
  {
    if !s.setList then
      (Ok(Itself), s.(list := if o.Lst? then Some(o.items) else s.list, setList := true), cur)
    else if !s.setVar then
      var s1 := s.(setVar := true);
      match CastString(o)
      case Err(e) => (Err(e), s1, cur)
      case Ok(v) => (Ok(Itself), s1.(itemVar := v), cur)
    else
      match CastString(o)
      case Err(e) => (Err(e), s, cur)
      case Ok(None) => (Fail(NullPointerException, "expression is null"), s.(key := None), cur)
      case Ok(Some(k)) =>
        var itemPath := ItemPath(s.itemVar);
        var keyPath := if k == KeyUndefined then itemPath else k;
        var cur1 := if s.list.None? || |s.list.value| == 0 then cur else s.list.value[|s.list.value| - 1];
        (Ok(Returned(StoreText(heap, s.list, itemPath, keyPath))), s.(key := Some(k)), cur1)
  }

  /** Appending one element to a JSON list adds a comma only after the first. */
  lemma {:induction false} JoinJsonSnoc(es: seq<Value>, e: Value)
    ensures JoinJson(es + [e]) == if |es| == 0 then JsonText(e) else JoinJson(es) + "," + JsonText(e)
    decreases |es|
  {
    if |es| == 1 {
      assert es + [e] == [es[0], e];
      assert [es[0], e][1..] == [e];
    } else if |es| > 1 {
      assert (es + [e])[1..] == es[1..] + [e];
      JoinJsonSnoc(es[1..], e);
      JoinAssoc(JsonText(es[0]), JoinJson(es[1..]), JsonText(e));
    }
  }

  /** Regrouping the comma-joined text h, t, x; kept apart so that the strings stay abstract. */
  lemma JoinAssoc(h: string, t: string, x: string)
    ensures h + "," + (t + "," + x) == (h + "," + t) + "," + x
  {
  }

  /** With the key "dojofaces_key_undefined" each entry's name is the element itself. */
  lemma KeyUndefinedNamesTheItems(heap: seq<Bean>, items: seq<Value>, itemVar: Option<string>)
    ensures NameObjects(heap, items, ItemPath(itemVar), ItemPath(itemVar))
      == seq(|items|, i requires 0 <= i < |items| => Obj([Field(NameKey, items[i])]))
  {
  }

  /** A first parameter that is not a List leaves no list: the store is then empty. */
  lemma NoListIsEmptyStore(heap: seq<Bean>, cur: Value, notList: Value, itemVar: string, key: string)
    requires !notList.Lst?
    ensures var g1 := ComboGet(heap, cur, ComboState(None, false, None, false, None), notList);
      var g2 := ComboGet(heap, g1.2, g1.1, Str(itemVar));
      ComboGet(heap, g2.2, g2.1, Str(key)).0 == Ok(Returned("[]"))
  {
  }

  /** The text after one more entry: a comma first unless it is the first entry. */
  lemma EntryAppended(objs: seq<Value>, i: nat, before: string, mid: string, entry: string)
    requires i < |objs| && before == "[" + JoinJson(objs[..i])
    requires mid == if i == 0 then before else before + ","
    requires entry == JsonText(objs[i])
    ensures mid + entry == "[" + JoinJson(objs[..i + 1])
  {
    var p := objs[..i];
    assert objs[..i + 1] == p + [objs[i]];
    JoinJsonSnoc(p, objs[i]);
    if i > 0 {
      assert ("[" + JoinJson(p) + ",") + entry == "[" + (JoinJson(p) + "," + entry);
    }
  }

  class ComboBoxStoreMap {
    var list: Option<seq<Value>>
    var itemVar: Option<string>
    var key: Option<string>
    var setList: bool
    var setVar: bool

    constructor ()
      ensures State() == ComboState(None, false, None, false, None)
    {
      list, itemVar, key := None, None, None;
      setList, setVar := false, false;
    }

    function State(): ComboState
      reads this
    {
      ComboState(list, setList, itemVar, setVar, key)
    }

    /** ComboBoxStoreMap.get. */
    method Get(ctx: FacesContext, o: Value) returns (r: Result<Reply<string>>)
      modifies this, ctx`current
      ensures (r, State(), ctx.current) == ComboGet(ctx.heap, old(ctx.current), old(State()), o)
    {
      if !setList {
        if o.Lst? {
          list := Some(o.items);
        }
        setList := true;
        return Ok(Itself);
      }
      if !setVar {
        setVar := true;
        var v := CastString(o);
        if v.Err? {
          return Err(v.error);
        }
        itemVar := v.value;
        return Ok(Itself);
      }
      var k := CastString(o);
      if k.Err? {
        return Err(k.error);
      }
      key := k.value;
      if key.None? {
        return Fail(NullPointerException, "expression is null");
      }
      var itemPath := ItemPath(itemVar);
      var keyPath := if key.value == KeyUndefined then itemPath else key.value;
      if list.None? {
        return Ok(Returned("[]"));
      }
      var text := Entries(ctx, list.value, itemPath, keyPath);
      r := Ok(Returned(text + "]"));
    }

    /**
     * The loop of get: each element bound in turn, a comma before every entry but the first.
     * The result is the text up to the closing bracket.
     */
    method Entries(ctx: FacesContext, items: seq<Value>, itemPath: string, keyPath: string) returns (text: string)
      modifies ctx`current
      ensures text + "]" == StoreText(ctx.heap, Some(items), itemPath, keyPath)
      ensures ctx.current == if |items| == 0 then old(ctx.current) else items[|items| - 1]
    {
      var heap := ctx.heap;
      ghost var objs := NameObjects(heap, items, itemPath, keyPath);
      text := "[";
      var start := true;
      var i := 0;
      while i < |items|
        invariant 0 <= i <= |items|
        invariant start <==> i == 0
        invariant text == "[" + JoinJson(objs[..i])
        invariant ctx.current == if i == 0 then old(ctx.current) else items[i - 1]
      {
        ctx.current := items[i];
        ghost var before := text;
        if start {
          start := false;
        } else {
          text := text + ",";
        }
        var entry := JsonText(Obj([Field(NameKey, Read(heap, ctx.current, itemPath, keyPath))]));
        EntryAppended(objs, i, before, text, entry);
        text := text + entry;
        i := i + 1;
      }
      assert objs[..i] == objs;
    }
  }
}
