/**
 * StoreConverterBase: reading a store's structure descriptor into the maps the rest of the
 * engine works from (leaf bindings, child bindings, numeric flags, converter parameters and
 * validator specs), the static cache of parsed descriptors, the argument coercion used for
 * reflective setters, and the per-column converter lookup with its cache.
 */
module ConverterBase {
  import opened Values
  import opened Faces

  /**
   * The maps tokenizeStructure fills. `None` is a map the caller passed as null.
   * leaves: valueBindingStrings, children: childrenStrings, numeric, converters:
   * converterStrings, validators: validatorStrings.
   */
  datatype Sinks = Sinks(
    leaves: Option<SMap<string>>,
    children: Option<SMap<string>>,
    numeric: Option<SMap<bool>>,
    converters: Option<SMap<SMap<string>>>,
    validators: Option<SMap<seq<SMap<Value>>>>)

  /** The maps as they stand after a step, and the exception that stopped it, if any. */
  datatype Step = Step(out: Sinks, err: Option<Exception>)

  /** The maps passed as null stay null. */
  predicate SameShape(a: Sinks, b: Sinks) {
    && (a.leaves.None? <==> b.leaves.None?)
    && (a.children.None? <==> b.children.None?)
    && (a.numeric.None? <==> b.numeric.None?)
    && (a.converters.None? <==> b.converters.None?)
    && (a.validators.None? <==> b.validators.None?)
  }

  /** A flag column entry counts when it is the string "true" or Boolean.TRUE. */
  predicate Flagged(v: Value) {
    v == Str("true") || v == Bool(true)
  }

  /** `(String) obj.get(k)`. */
  function GetString(fs: seq<Field>, k: string): (r: Result<string>)
    ensures r.Ok? <==> Opt(fs, k).Str?
    ensures r.Ok? ==> r.value == Opt(fs, k).s
  {
    var v :- Get(fs, k);
    if v.Str? then Ok(v.s) else Fail(ClassCastException, k + " is not a String")
  }

  /** `(String) obj.get(key)` for the key being iterated. */
  function EntryString(f: Field): (r: Result<string>)
    ensures r.Ok? <==> f.val.Str?
    ensures r.Ok? ==> r.value == f.val.s
  {
    var v :- EntryGet(f);
    if v.Str? then Ok(v.s) else Fail(ClassCastException, f.name + " is not a String")
  }

  // ---------------------------------------------------------------------------
  // Converter parameters and validator specs

  /** Copies the attributes fs[i..] of a converter object into `acc`, each cast to String. */
  function ConverterParamsFrom(fs: seq<Field>, i: nat, acc: SMap<string>): Result<SMap<string>>
    requires i <= |fs|
    decreases |fs| - i
  {
    if i == |fs| then Ok(acc)
    else
      var s :- EntryString(fs[i]);
      ConverterParamsFrom(fs, i + 1, acc.Set(fs[i].name, s))
  }

  /** The parameters a column's `converter` entry stands for. */
  function ConverterParams(cv: Value): Result<SMap<string>> {
    match cv
    case Str(s) => Ok(EmptyMap<string>().Set("id", s))
    case Obj(fs) => ConverterParamsFrom(fs, 0, EmptyMap())
    case _ => Fail(ClassCastException, "converter is not a JSONObject")
  }

  function ValidatorParamsFrom(fs: seq<Field>, i: nat, acc: SMap<Value>): Result<SMap<Value>>
    requires i <= |fs|
    decreases |fs| - i
  {
    if i == |fs| then Ok(acc)
    else
      var v :- EntryGet(fs[i]);
      ValidatorParamsFrom(fs, i + 1, acc.Set(fs[i].name, v))
  }

  /** readValidator: a String is the id of the validator, an object holds all its parameters. */
  function ReadValidator(v: Value): Result<SMap<Value>> {
    match v
    case Str(s) => Ok(EmptyMap<Value>().Set("id", Str(s)))
    case Obj(fs) => ValidatorParamsFrom(fs, 0, EmptyMap())
    case _ => Fail(ClassCastException, "validator is not a JSONObject")
  }

  /** A validator list as far as it was filled, and the exception that stopped the filling. */
  datatype Specs = Specs(list: seq<SMap<Value>>, err: Option<Exception>)

  /** JSONArray.get(i): a null element is an error. */
  function ArrayGet(es: seq<Value>, i: nat): (r: Result<Value>)
    requires i < |es|
    ensures r.Ok? <==> es[i] != Null
    ensures r.Ok? ==> r.value == es[i]
    ensures r.Err? ==> IsJSONException(r.error)
  {
    if es[i] == Null then Fail(JSONException, "JSONArray[" + NatText(i) + "] not found.")
    else Ok(es[i])
  }

  function ValidatorListFrom(es: seq<Value>, i: nat, acc: seq<SMap<Value>>): Specs
    requires i <= |es|
    decreases |es| - i
  {
    if i == |es| then Specs(acc, None)
    else match ArrayGet(es, i)
      case Err(e) => Specs(acc, Some(e))
      case Ok(e) =>
        match ReadValidator(e)
        case Err(x) => Specs(acc, Some(x))
        case Ok(p) => ValidatorListFrom(es, i + 1, acc + [p])
  }

  /** The specs of a column's `validators` entry: one per array element, or a single one. */
  function ValidatorList(vs: Value): Specs {
    if vs.Arr? then ValidatorListFrom(vs.elems, 0, [])
    else match ReadValidator(vs)
      case Ok(p) => Specs([p], None)
      case Err(e) => Specs([], Some(e))
  }

  // ---------------------------------------------------------------------------
  // Columns

  /** Reading one column of the descriptor into the maps. */
  function Column(k: string, column: Value, out: Sinks): (r: Step)
    ensures SameShape(out, r.out)
  {
    if column.Obj? then
      match Bind(k, column.fields, out)
      case Err(e) => Step(out, Some(e))
      case Ok(o1) => Settings(k, column.fields, o1)
    else if out.leaves.Some? then
      if column.Str? then Step(out.(leaves := Some(out.leaves.value.Set(k, column.s))), None)
      else Step(out, Some(Exception(ClassCastException, Some(k + " is not a String"))))
    else Step(out, None)
  }

  /** The binding stage of an object column: its `el` goes into the child or the leaf bindings. */
  function Bind(k: string, c: seq<Field>, out: Sinks): (r: Result<Sinks>)
    ensures r.Ok? ==> SameShape(out, r.value)
    ensures r.Ok? ==> r.value.(children := out.children, leaves := out.leaves) == out
  {
    if out.children.Some? && Flagged(Opt(c, "children")) then
      match GetString(c, "el")
      case Ok(el) => Ok(out.(children := Some(out.children.value.Set(k, el))))
      case Err(e) => Err(e)
    else if out.leaves.Some? then
      match GetString(c, "el")
      case Ok(el) => Ok(out.(leaves := Some(out.leaves.value.Set(k, el))))
      case Err(e) => Err(e)
    else Ok(out)
  }

  /** The stages of an object column after its binding: the numeric flag, the converter, the validators. */
  function Settings(k: string, c: seq<Field>, o1: Sinks): (r: Step)
    ensures SameShape(o1, r.out)
    ensures r.out.children == o1.children && r.out.leaves == o1.leaves
  {
    var o2 :=
      if o1.numeric.Some? && Flagged(Opt(c, "numeric"))
      then o1.(numeric := Some(o1.numeric.value.Set(k, true)))
      else o1;
    var cv := Opt(c, "converter");
    if o2.converters.Some? && cv != Null then
      match ConverterParams(cv)
      case Err(e) => Step(o2, Some(e))
      case Ok(p) => Validators(k, c, o2.(converters := Some(o2.converters.value.Set(k, p))))
    else Validators(k, c, o2)
  }

  /** The validator stage of an object column: the list is stored first, then filled. */
  function Validators(k: string, c: seq<Field>, out: Sinks): (r: Step)
    ensures SameShape(out, r.out)
  {
    var vs := Opt(c, "validators");
    if out.validators.Some? && vs != Null then
      var specs := ValidatorList(vs);
      Step(out.(validators := Some(out.validators.value.Set(k, specs.list))), specs.err)
    else Step(out, None)
  }

  /** Reading the columns fs[j..] in key order; the first exception stops the reading. */
  function ColumnsFrom(fs: seq<Field>, j: nat, out: Sinks): (r: Step)
    requires j <= |fs|
    ensures SameShape(out, r.out)
    decreases |fs| - j
  {
    if j == |fs| then Step(out, None)
    else match EntryGet(fs[j])
      case Err(e) => Step(out, Some(e))
      case Ok(column) =>
        var s := Column(fs[j].name, column, out);
        if s.err.Some? then s else ColumnsFrom(fs, j + 1, s.out)
  }

  /** The structure cache after a call, and the maps it filled. */
  datatype Tokenized = Tokenized(cache: map<string, seq<Field>>, step: Step)

  /**
   * tokenizeStructure: a null structure does nothing; a structure already in the cache is
   * read from there; any other is parsed, and cached when the parse succeeds.
   */
  function TokenizeSpec(env: Env, cache: map<string, seq<Field>>, structure: Option<string>, out: Sinks): (r: Tokenized)
    ensures structure.None? ==> r == Tokenized(cache, Step(out, None))
    ensures structure.Some? && structure.value in cache ==>
      r == Tokenized(cache, ColumnsFrom(cache[structure.value], 0, out))
    ensures cache.Keys <= r.cache.Keys
    ensures SameShape(out, r.step.out)
  {
    match structure
    case None => Tokenized(cache, Step(out, None))
    case Some(s) =>
      if s in cache then Tokenized(cache, ColumnsFrom(cache[s], 0, out))
      else match env.parseStructure(s)
        case Err(e) => Tokenized(cache, Step(out, Some(e)))
        case Ok(fs) => Tokenized(cache[s := fs], ColumnsFrom(fs, 0, out))
  }

  /** Every cached structure holds what parsing its text gives. */
  ghost predicate Coherent(env: Env, cache: map<string, seq<Field>>) {
    forall s :: s in cache ==> env.parseStructure(s) == Ok(cache[s])
  }

  /** The cache is invisible: a coherent cache gives the maps a fresh parse would, and stays coherent. */
  lemma CacheIsTransparent(env: Env, cache: map<string, seq<Field>>, structure: Option<string>, out: Sinks)
    requires Coherent(env, cache)
    ensures TokenizeSpec(env, cache, structure, out).step == TokenizeSpec(env, map[], structure, out).step
    ensures Coherent(env, TokenizeSpec(env, cache, structure, out).cache)
  {
  }

  /** Once a structure has been read, a second call reads the cached copy and leaves the cache as it is. */
  lemma SecondReadUsesCache(env: Env, cache: map<string, seq<Field>>, s: string, out1: Sinks, out2: Sinks)
    requires TokenizeSpec(env, cache, Some(s), out1).step.err.None?
    ensures var c1 := TokenizeSpec(env, cache, Some(s), out1).cache;
      s in c1 && TokenizeSpec(env, c1, Some(s), out2).cache == c1
  {
  }

  /** A String column becomes a leaf binding whose path is that string. */
  lemma StringColumnIsLeaf(k: string, path: string, out: Sinks)
    requires out.leaves.Some?
    ensures Column(k, Str(path), out) == Step(out.(leaves := Some(out.leaves.value.Set(k, path))), None)
  {
  }

  /**
   * An object column goes into the child bindings when its `children` flag is set and the
   * caller asked for child bindings, otherwise into the leaf bindings; never into both.
   */
  lemma ObjectColumnBinding(k: string, c: seq<Field>, out: Sinks)
    requires Column(k, Obj(c), out).err.None?
    ensures var r := Column(k, Obj(c), out);
      if out.children.Some? && Flagged(Opt(c, "children")) then
        r.out.children == Some(out.children.value.Set(k, Opt(c, "el").s)) && r.out.leaves == out.leaves
      else
        r.out.children == out.children
        && r.out.leaves == (if out.leaves.Some? then Some(out.leaves.value.Set(k, Opt(c, "el").s)) else None)
  {
    var b := Bind(k, c, out);
    assert b.Ok?;
    var isChild := out.children.Some? && Flagged(Opt(c, "children"));
    assert isChild || out.leaves.Some? ==> GetString(c, "el").Ok?;
  }

  /** The numeric flag of an object column is recorded exactly when it is "true" or Boolean.TRUE. */
  lemma NumericFlag(k: string, c: seq<Field>, out: Sinks)
    requires Column(k, Obj(c), out).err.None?
    ensures Column(k, Obj(c), out).out.numeric
      == (if out.numeric.Some? && Flagged(Opt(c, "numeric")) then Some(out.numeric.value.Set(k, true)) else out.numeric)
  {
    var b := Bind(k, c, out);
    assert b.Ok? && b.value.numeric == out.numeric;
  }

  /** A String converter entry names the converter's id. */
  lemma ConverterStringIsId(s: string)
    ensures ConverterParams(Str(s)) == Ok(SMap(["id"], map["id" := s]))
  {
    assert [] + ["id"] == ["id"];
  }

  /** Copying from position i succeeds exactly when the attributes fs[i..] are all Strings. */
  lemma {:induction false} ConverterParamsOk(fs: seq<Field>, i: nat, acc: SMap<string>)
    requires i <= |fs|
    ensures ConverterParamsFrom(fs, i, acc).Ok? <==> forall j :: i <= j < |fs| ==> fs[j].val.Str?
    decreases |fs| - i
  {
    if i < |fs| {
      if fs[i].val.Str? {
        ConverterParamsOk(fs, i + 1, acc.Set(fs[i].name, fs[i].val.s));
      }
    }
  }

  /** Copying from position i adds the attributes fs[i..] after the existing keys, each with its String value. */
  lemma {:induction false} ConverterParamsCopy(fs: seq<Field>, i: nat, acc: SMap<string>)
    requires i <= |fs| && DistinctNames(fs)
    requires forall j :: i <= j < |fs| ==> fs[j].name !in acc.vals && fs[j].val.Str?
    ensures ConverterParamsFrom(fs, i, acc).Ok?
    ensures var m := ConverterParamsFrom(fs, i, acc).value;
      && |m.keys| == |acc.keys| + |fs| - i
      && m.keys[..|acc.keys|] == acc.keys
      && (forall j :: |acc.keys| <= j < |m.keys| ==> m.keys[j] == fs[j - |acc.keys| + i].name)
      && (forall j :: i <= j < |fs| ==> fs[j].name in m.vals && m.vals[fs[j].name] == fs[j].val.s)
      && (forall x :: x in acc.vals ==> x in m.vals && m.vals[x] == acc.vals[x])
    decreases |fs| - i
  {
    if i < |fs| {
      var n := fs[i].name;
      var acc' := acc.Set(n, fs[i].val.s);
      assert ConverterParamsFrom(fs, i, acc) == ConverterParamsFrom(fs, i + 1, acc');
      forall j | i + 1 <= j < |fs|
        ensures fs[j].name !in acc'.vals && fs[j].val.Str?
      {
        assert fs[i].name != fs[j].name;
      }
      ConverterParamsCopy(fs, i + 1, acc');
      var m := ConverterParamsFrom(fs, i + 1, acc').value;
      assert acc'.keys == acc.keys + [n];
      assert m.keys[..|acc.keys|] == m.keys[..|acc'.keys|][..|acc.keys|];
      assert m.keys[|acc.keys|] == acc'.keys[|acc.keys|];
      assert forall j :: |acc'.keys| <= j < |m.keys| ==> m.keys[j] == fs[j - |acc'.keys| + i + 1].name;
    }
  }

  /** An object converter entry is read when every attribute is a String. */
  lemma ConverterObjectNeedsStrings(fs: seq<Field>)
    ensures ConverterParams(Obj(fs)).Ok? <==> forall j :: 0 <= j < |fs| ==> fs[j].val.Str?
  {
    var e := EmptyMap<string>();
    assert ConverterParams(Obj(fs)) == ConverterParamsFrom(fs, 0, e);
    ConverterParamsOk(fs, 0, e);
  }

  /** An object converter entry of String attributes copies every attribute, in order. */
  lemma ConverterObjectCopiesAll(fs: seq<Field>)
    requires DistinctNames(fs)
    requires forall j :: 0 <= j < |fs| ==> fs[j].val.Str?
    ensures ConverterParams(Obj(fs)).Ok?
    ensures var m := ConverterParams(Obj(fs)).value;
      && |m.keys| == |fs|
      && (forall j :: 0 <= j < |fs| ==> m.keys[j] == fs[j].name)
      && (forall j :: 0 <= j < |fs| ==> fs[j].name in m.vals && m.vals[fs[j].name] == fs[j].val.s)
  {
    var e: SMap<string> := SMap([], map[]);
    assert ConverterParams(Obj(fs)) == ConverterParamsFrom(fs, 0, e);
    ConverterParamsCopy(fs, 0, e);
    var m := ConverterParamsFrom(fs, 0, e).value;
    forall k | 0 <= k < |fs|
      ensures m.keys[k] == fs[k].name
    {
      assert |e.keys| <= k < |m.keys|;
      assert m.keys[k] == fs[k - |e.keys| + 0].name;
    }
  }

  /** A String validator entry names the validator's id. */
  lemma ValidatorStringIsId(s: string)
    ensures ReadValidator(Str(s)) == Ok(SMap(["id"], map["id" := Str(s)]))
  {
    assert [] + ["id"] == ["id"];
  }

  /** A validators array yields one spec per element, in order; the first failure stops the list. */
  lemma {:induction false} ValidatorListFromIsOnePerElement(es: seq<Value>, i: nat, acc: seq<SMap<Value>>)
    requires i <= |es|
    ensures var sp := ValidatorListFrom(es, i, acc);
      && |acc| <= |sp.list| <= |acc| + |es| - i
      && sp.list[..|acc|] == acc
      && (sp.err.None? ==> |sp.list| == |acc| + |es| - i)
    decreases |es| - i
  {
    if i < |es| && es[i] != Null && ReadValidator(es[i]).Ok? {
      var p := ReadValidator(es[i]).value;
      ValidatorListFromIsOnePerElement(es, i + 1, acc + [p]);
      var sp := ValidatorListFrom(es, i + 1, acc + [p]);
      assert sp.list[..|acc|] == (sp.list[..|acc| + 1])[..|acc|];
    }
  }

  /** Each spec the array reading adds is the reading of the element at its position. */
  lemma {:induction false} ValidatorListFromReadsElements(es: seq<Value>, i: nat, acc: seq<SMap<Value>>)
    requires i <= |es|
    ensures var sp := ValidatorListFrom(es, i, acc);
      forall j :: |acc| <= j < |sp.list| && i + j - |acc| < |es| ==> ReadValidator(es[i + j - |acc|]) == Ok(sp.list[j])
    decreases |es| - i
  {
    if i < |es| && es[i] != Null && ReadValidator(es[i]).Ok? {
      var p := ReadValidator(es[i]).value;
      ValidatorListFromReadsElements(es, i + 1, acc + [p]);
      ValidatorListFromIsOnePerElement(es, i + 1, acc + [p]);
      var sp := ValidatorListFrom(es, i + 1, acc + [p]);
      assert sp.list[|acc|] == (sp.list[..|acc| + 1])[|acc|] == p;
      forall j | |acc| <= j < |sp.list| && i + j - |acc| < |es|
        ensures ReadValidator(es[i + j - |acc|]) == Ok(sp.list[j])
      {
        if j > |acc| {
          assert i + j - |acc| == (i + 1) + j - |acc + [p]|;
        }
      }
    }
  }

  /** The validators entry: an array gives one spec per element in order, anything else one spec. */
  lemma ValidatorListShape(vs: Value)
    ensures vs.Arr? && ValidatorList(vs).err.None? ==>
      |ValidatorList(vs).list| == |vs.elems|
      && forall j :: 0 <= j < |vs.elems| ==> ReadValidator(vs.elems[j]) == Ok(ValidatorList(vs).list[j])
    ensures !vs.Arr? && ValidatorList(vs).err.None? ==> ValidatorList(vs).list == [ReadValidator(vs).value]
  {
    if vs.Arr? {
      ValidatorListFromIsOnePerElement(vs.elems, 0, []);
      ValidatorListFromReadsElements(vs.elems, 0, []);
    }
  }

  // ---------------------------------------------------------------------------
  // The imperative reading of a descriptor

  /** The static structureCache, with the list of texts it ever parsed. */
  class StructureCache {
    var cache: map<string, seq<Field>>
    ghost var parsed: seq<string>

    /** Each cached text was parsed exactly once, and only cached texts were parsed successfully. */
    ghost predicate Valid()
      reads this
    {
      Distinct(parsed) && forall s :: s in cache <==> s in parsed
    }

    constructor ()
      ensures Valid() && cache == map[] && parsed == []
    {
      cache := map[];
      parsed := [];
    }

    /** tokenizeStructure. */
    method Tokenize(structure: Option<string>, out: Sinks, env: Env) returns (r: Step)
      requires Valid()
      modifies this
      ensures Valid()
      ensures Tokenized(cache, r) == TokenizeSpec(env, old(cache), structure, out)
      ensures structure.None? || structure.value in old(cache) ==> parsed == old(parsed)
      ensures parsed == old(parsed) || (structure.Some? && parsed == old(parsed) + [structure.value])
    {
      if structure.None? {
        return Step(out, None);
      }
      var s := structure.value;
      var fs;
      if s in cache {
        fs := cache[s];
      } else {
        var p := env.parseStructure(s);
        if p.Err? {
          return Step(out, Some(p.error));
        }
        fs := p.value;
        cache := cache[s := fs];
        parsed := parsed + [s];
        assert s !in old(parsed);
        forall i, j | 0 <= i < j < |parsed|
          ensures parsed[i] != parsed[j]
        {
          if j == |parsed| - 1 {
            assert parsed[i] in old(parsed);
          }
        }
      }
      r := ReadColumns(fs, out);
    }
  }

  method ReadColumns(fs: seq<Field>, out: Sinks) returns (r: Step)
    ensures r == ColumnsFrom(fs, 0, out)
  {
    var cur := out;
    var j := 0;
    while j < |fs|
      invariant 0 <= j <= |fs|
      invariant ColumnsFrom(fs, j, cur) == ColumnsFrom(fs, 0, out)
    {
      var column := EntryGet(fs[j]);
      if column.Err? {
        return Step(cur, Some(column.error));
      }
      var s := ReadColumn(fs[j].name, column.value, cur);
      if s.err.Some? {
        return s;
      }
      cur := s.out;
      j := j + 1;
    }
    r := Step(cur, None);
  }

  method ReadColumn(k: string, column: Value, out: Sinks) returns (r: Step)
    ensures r == Column(k, column, out)
  {
    if !column.Obj? {
      if out.leaves.Some? {
        if column.Str? {
          return Step(out.(leaves := Some(out.leaves.value.Set(k, column.s))), None);
        }
        return Step(out, Some(Exception(ClassCastException, Some(k + " is not a String"))));
      }
      return Step(out, None);
    }
    var c := column.fields;
    var o := out;
    if out.children.Some? && Flagged(Opt(c, "children")) {
      var el := GetString(c, "el");
      if el.Err? {
        return Step(out, Some(el.error));
      }
      o := o.(children := Some(o.children.value.Set(k, el.value)));
    } else if out.leaves.Some? {
      var el := GetString(c, "el");
      if el.Err? {
        return Step(out, Some(el.error));
      }
      o := o.(leaves := Some(o.leaves.value.Set(k, el.value)));
    }
    if o.numeric.Some? && Flagged(Opt(c, "numeric")) {
      o := o.(numeric := Some(o.numeric.value.Set(k, true)));
    }
    var cv := Opt(c, "converter");
    if o.converters.Some? && cv != Null {
      var p := CopyConverterParams(cv);
      if p.Err? {
        return Step(o, Some(p.error));
      }
      o := o.(converters := Some(o.converters.value.Set(k, p.value)));
    }
    var vs := Opt(c, "validators");
    if o.validators.Some? && vs != Null {
      var specs := ReadValidators(vs);
      return Step(o.(validators := Some(o.validators.value.Set(k, specs.list))), specs.err);
    }
    r := Step(o, None);
  }

  method CopyConverterParams(cv: Value) returns (r: Result<SMap<string>>)
    ensures r == ConverterParams(cv)
  {
    if cv.Str? {
      return Ok(EmptyMap<string>().Set("id", cv.s));
    }
    if !cv.Obj? {
      return Fail(ClassCastException, "converter is not a JSONObject");
    }
    var fs := cv.fields;
    var acc := EmptyMap<string>();
    var i := 0;
    while i < |fs|
      invariant 0 <= i <= |fs|
      invariant ConverterParamsFrom(fs, i, acc) == ConverterParams(cv)
    {
      var s := EntryString(fs[i]);
      if s.Err? {
        return Err(s.error);
      }
      acc := acc.Set(fs[i].name, s.value);
      i := i + 1;
    }
    r := Ok(acc);
  }

  method ReadValidators(vs: Value) returns (r: Specs)
    ensures r == ValidatorList(vs)
  {
    if !vs.Arr? {
      var p := ReadValidatorParams(vs);
      return if p.Ok? then Specs([p.value], None) else Specs([], Some(p.error));
    }
    var es := vs.elems;
    var list := [];
    var i := 0;
    while i < |es|
      invariant 0 <= i <= |es|
      invariant ValidatorListFrom(es, i, list) == ValidatorList(vs)
    {
      var e := ArrayGet(es, i);
      if e.Err? {
        return Specs(list, Some(e.error));
      }
      var p := ReadValidatorParams(e.value);
      if p.Err? {
        return Specs(list, Some(p.error));
      }
      list := list + [p.value];
      i := i + 1;
    }
    r := Specs(list, None);
  }

  /** readValidator. */
  method ReadValidatorParams(v: Value) returns (r: Result<SMap<Value>>)
    ensures r == ReadValidator(v)
  {
    if v.Str? {
      return Ok(EmptyMap<Value>().Set("id", v));
    }
    if !v.Obj? {
      return Fail(ClassCastException, "validator is not a JSONObject");
    }
    var fs := v.fields;
    var acc := EmptyMap<Value>();
    var i := 0;
    while i < |fs|
      invariant 0 <= i <= |fs|
      invariant ValidatorParamsFrom(fs, i, acc) == ReadValidator(v)
    {
      var x := EntryGet(fs[i]);
      if x.Err? {
        return Err(x.error);
      }
      acc := acc.Set(fs[i].name, x.value);
      i := i + 1;
    }
    r := Ok(acc);
  }

  // ---------------------------------------------------------------------------
  // coerceTo

  /**
   * `paramType.isAssignableFrom(object.getClass())` for a non-null object. No value of the
   * model is a Double or a Float; for any other class the services answer.
   */
  predicate Assignable(env: Env, t: JType, v: Value) {
    match t
    case TObject => true
    case TString => v.Str?
    case TBoolean(p) => !p && v.Bool?
    case TNumber => v.Num?
    case TLong(p) => !p && v.Num? && v.kind == LongKind
    case TInteger(p) => !p && v.Num? && v.kind == IntegerKind
    case TShort(p) => !p && v.Num? && v.kind == ShortKind
    case TByte(p) => !p && v.Num? && v.kind == ByteKind
    case TDouble(_) => false
    case TFloat(_) => false
    case TOtherNumber(name) => env.assignableFrom(name, v)
    case TOther(name) => env.assignableFrom(name, v)
  }

  /** The targets coerceTo treats as numbers: Number and its subclasses, and the numeric primitives. */
  predicate NumericTarget(t: JType) {
    t.TNumber? || t.TLong? || t.TInteger? || t.TShort? || t.TByte? || t.TDouble? || t.TFloat? || t.TOtherNumber?
  }

  /** The integral width a numeric target narrows to, if it is one of long/int/short/byte. */
  function IntegralWidth(t: JType): Option<(NumKind, Width)> {
    match t
    case TLong(_) => Some((LongKind, W64))
    case TInteger(_) => Some((IntegerKind, W32))
    case TShort(_) => Some((ShortKind, W16))
    case TByte(_) => Some((ByteKind, W8))
    case _ => None
  }

  /** coerceTo: the argument a reflective setter of parameter type `t` receives for `v`. */
  function CoerceTo(env: Env, t: JType, v: Value): (r: Result<Value>)
    ensures v == Null ==> r.Err? && r.error.kind == NullPointerException
    ensures v != Null && Assignable(env, t, v) ==> r == Ok(v)
    ensures v != Null && !Assignable(env, t, v) && v.Num? && IntegralWidth(t).Some? ==>
      r == Ok(Num(IntegralWidth(t).value.0, Narrow(v.n, IntegralWidth(t).value.1)))
    ensures v != Null && !Assignable(env, t, v) && !NumericTarget(t) ==> r == Ok(Null)
    ensures v != Null && !Assignable(env, t, v) && NumericTarget(t) && !v.Num? && !v.Str? ==> r == Ok(Null)
  {
    if v == Null then Fail(NullPointerException, "coerceTo of null")
    else if Assignable(env, t, v) then Ok(v)
    else if NumericTarget(t) then
      if v.Num? then
        match t
        case TNumber => Ok(v)
        case TLong(_) => Ok(Num(LongKind, Narrow(v.n, W64)))
        case TInteger(_) => Ok(Num(IntegerKind, Narrow(v.n, W32)))
        case TDouble(_) => Ok(env.toFloating(t, v.n))
        case TFloat(_) => Ok(env.toFloating(t, v.n))
        case TShort(_) => Ok(Num(ShortKind, Narrow(v.n, W16)))
        case TByte(_) => Ok(Num(ByteKind, Narrow(v.n, W8)))
        case TOtherNumber(name) => Fail(IllegalArgumentException, "cannot process validator argument class " + name)
        case _ => Ok(Null)
      else if v.Str? then env.parseNumber(v.s)
      else Ok(Null)
    else Ok(Null)
  }

  /** A narrowed number fits its width and changes only by a multiple of 2 to the width. */
  lemma CoercedNumberFits(env: Env, t: JType, v: Value)
    requires v.Num? && !Assignable(env, t, v) && IntegralWidth(t).Some?
    ensures var w := IntegralWidth(t).value.1;
      CoerceTo(env, t, v).Ok? && InRange(CoerceTo(env, t, v).value.n, w)
      && (InRange(v.n, w) ==> CoerceTo(env, t, v).value.n == v.n)
      && exists q :: CoerceTo(env, t, v).value.n == v.n + q * Modulus(w)
  {
    NarrowCongruent(v.n, IntegralWidth(t).value.1);
  }

  // ---------------------------------------------------------------------------
  // determineConverter

  /** The converters found so far and the value bindings created lazily, by column key. */
  datatype ConvState = ConvState(converters: map<string, nat>, bindings: map<string, string>)

  /** The converter found (or none), and the caches after the lookup. */
  datatype Found = Found(r: Result<Option<nat>>, st: ConvState)

  /** Setting one converter attribute by reflection: a property of that name takes the coerced string. */
  function SetConverterAttribute(env: Env, c: nat, name: string, value: string): (r: Option<Exception>)
    ensures env.property(c, name).NoProperty? ==> r.None?
    ensures env.property(c, name).ReadOnlyProperty? ==> r.Some? && r.value.kind == NullPointerException
    ensures r.Some? ==> r.value.kind == IllegalArgumentException || r.value.kind == NullPointerException
    ensures env.property(c, name).Writable? ==>
      var a := CoerceTo(env, env.property(c, name).paramType, Str(value));
      (r.None? <==> a.Ok? && env.setProperty(c, name, a.value).None?)
  {
    match env.property(c, name)
    case NoProperty => None
    case ReadOnlyProperty => Some(Exception(NullPointerException, None))
    case Writable(t) =>
      match CoerceTo(env, t, Str(value))
      case Err(e) =>
        if e.kind == IllegalArgumentException || e.kind == NullPointerException then Some(e)
        else Some(Exception(IllegalArgumentException, Some("ParseException invoking setter for " + name)))
      case Ok(a) =>
        match env.setProperty(c, name, a)
        case Some(_) => Some(Exception(IllegalArgumentException, Some("InvocationTargetException invoking setter for " + name)))
        case None => None
  }

  /**
   * Applying the column's converter attributes from position i; lang and country are set last,
   * as a locale. A key without a value does not occur in a valid map; it would be skipped.
   */
  function ConfigureFrom(env: Env, c: nat, params: SMap<string>, i: nat, lang: Option<string>, country: Option<string>)
    : (r: Option<Exception>)
    requires i <= |params.keys|
    ensures (forall n :: i <= n < |params.keys| ==> LocaleOnly(params.keys[n])) ==>
      var l := if "lang" in params.keys[i..] && "lang" in params.vals then Some(params.vals["lang"]) else lang;
      var co := if "country" in params.keys[i..] && "country" in params.vals then Some(params.vals["country"]) else country;
      r == if l.Some? then env.setLocale(c, l.value, co) else None
    decreases |params.keys| - i
  {
    if i == |params.keys| then
      if lang.Some? then env.setLocale(c, lang.value, country) else None
    else
      var a := params.keys[i];
      if a !in params.vals then ConfigureFrom(env, c, params, i + 1, lang, country)
      else
      var v := params.vals[a];
      if a == "lang" then ConfigureFrom(env, c, params, i + 1, Some(v), country)
      else if a == "country" then ConfigureFrom(env, c, params, i + 1, lang, Some(v))
      else if a == "label" || a == "id" then ConfigureFrom(env, c, params, i + 1, lang, country)
      else if a == "timeZone" then
        match env.setTimeZone(c, v)
        case Some(e) => Some(e)
        case None => ConfigureFrom(env, c, params, i + 1, lang, country)
      else
        match SetConverterAttribute(env, c, a, v)
        case Some(e) => Some(e)
        case None => ConfigureFrom(env, c, params, i + 1, lang, country)
  }

  /** The attributes that set nothing by themselves: lang and country make the locale, label and id are skipped. */
  predicate LocaleOnly(a: string) {
    a == "lang" || a == "country" || a == "label" || a == "id"
  }

  /** The converter parameters of a column, when there are any. */
  function ParamsOf(convStrings: SMap<SMap<string>>, key: string): (r: Option<SMap<string>>)
    ensures r.Some? ==> key in convStrings.vals && r.value == convStrings.vals[key]
  {
    if key in convStrings.vals then Some(convStrings.vals[key]) else None
  }

  /** The converter parameters name a converter id. */
  predicate HasId(params: Option<SMap<string>>) {
    params.Some? && "id" in params.value.vals
  }

  /**
   * The search of determineConverter: the cached converter, else the one its `id` names, else
   * the one registered for the type of its value binding (remembering that binding).
   */
  function Locate(env: Env, key: string, params: Option<SMap<string>>, vbStrings: SMap<string>, st: ConvState): (f: Found)
    ensures key in st.converters ==> f == Found(Ok(Some(st.converters[key])), st)
    ensures f.st.converters == st.converters
    ensures st.bindings.Keys <= f.st.bindings.Keys
    ensures key !in st.converters && HasId(params) ==>
      var made := env.createConverter(params.value.vals["id"]);
      && f.st == st
      && (f.r.Ok? <==> made.Some?) && (f.r.Ok? ==> f.r.value == made)
      && (f.r.Err? ==> f.r.error.kind == ConverterException)
    ensures key !in st.converters && !HasId(params) ==>
      && (forall b :: b in st.bindings ==> b in f.st.bindings && f.st.bindings[b] == st.bindings[b])
      && (key !in st.bindings && key in vbStrings.vals ==> key in f.st.bindings && f.st.bindings[key] == vbStrings.vals[key])
      && (f.st.bindings.Keys <= st.bindings.Keys + {key})
      && (key !in f.st.bindings ==> f.r == Ok(None))
      && (key in f.st.bindings ==>
            var t := env.typeOf(f.st.bindings[key]);
            && (t != "java.lang.Number" ==> f.r == Ok(env.converterForType(t)))
            && (t == "java.lang.Number" ==>
                  var made := env.createConverter("jakarta.faces.Number");
                  (f.r.Ok? <==> made.Some?) && (f.r.Ok? ==> f.r.value == made) && (f.r.Err? ==> f.r.error.kind == FacesException)))
  {
    if key in st.converters then Found(Ok(Some(st.converters[key])), st)
    else if HasId(params) then
      var id := params.value.vals["id"];
      match env.createConverter(id)
      case None => Found(Fail(ConverterException, "Unable to create converter " + id), st)
      case Some(c) => Found(Ok(Some(c)), st)
    else
      var bindings :=
        if key !in st.bindings && key in vbStrings.vals then st.bindings[key := vbStrings.vals[key]]
        else st.bindings;
      var st1 := st.(bindings := bindings);
      if key in bindings then
        var t := env.typeOf(bindings[key]);
        if t == "java.lang.Number" then
          match env.createConverter("jakarta.faces.Number")
          case None => Found(Fail(FacesException, "Cannot create converter jakarta.faces.Number"), st1)
          case Some(c) => Found(Ok(Some(c)), st1)
        else Found(Ok(env.converterForType(t)), st1)
      else Found(Ok(None), st1)
  }

  /** determineConverter: the converter of a column, from the cache, its id, or its value's type. */
  function Determine(env: Env, key: string, convStrings: SMap<SMap<string>>, vbStrings: SMap<string>, st: ConvState): (f: Found)
    ensures key in st.converters && f.r.Ok? ==> f.r.value == Some(st.converters[key])
    ensures f.r.Ok? && f.r.value.Some? ==> f.st.converters == st.converters[key := f.r.value.value]
    ensures f.r.Ok? && f.r.value.None? ==> f.st.converters == st.converters && key !in st.converters
    ensures st.bindings.Keys <= f.st.bindings.Keys
  {
    var params := ParamsOf(convStrings, key);
    var found := Locate(env, key, params, vbStrings, st);
    match found.r
    case Err(_) => found
    case Ok(None) => found
    case Ok(Some(c)) =>
      var st2 := found.st.(converters := found.st.converters[key := c]);
      match params
      case None => Found(Ok(Some(c)), st2)
      case Some(p) =>
        match ConfigureFrom(env, c, p, 0, None, None)
        case Some(e) => Found(Err(e), st2)
        case None => Found(Ok(Some(c)), st2)
  }

  /**
   * A converter the search finds is put in the cache, even when configuring it then fails;
   * a cached converter stays as it was.
   */
  lemma FoundConverterIsCached(env: Env, key: string, convStrings: SMap<SMap<string>>, vbStrings: SMap<string>, st: ConvState)
    ensures var found := Locate(env, key, ParamsOf(convStrings, key), vbStrings, st);
      found.r.Ok? && found.r.value.Some? ==>
        Determine(env, key, convStrings, vbStrings, st).st.converters == st.converters[key := found.r.value.value]
    ensures key in st.converters ==> Determine(env, key, convStrings, vbStrings, st).st.converters == st.converters
  {
    var found := Locate(env, key, ParamsOf(convStrings, key), vbStrings, st);
    if key in st.converters {
      assert st.converters[key := st.converters[key]] == st.converters;
    }
  }

  /** A converter id wins over the value binding: the search then never looks at the bindings. */
  lemma IdBeatsType(env: Env, key: string, params: Option<SMap<string>>, vb1: SMap<string>, vb2: SMap<string>, st: ConvState)
    requires key !in st.converters && HasId(params)
    ensures Locate(env, key, params, vb1, st) == Locate(env, key, params, vb2, st)
  {
  }

  /**
   * The value binding of a column is created once and remembered: a second search through
   * other binding strings finds what the first found.
   */
  lemma BindingIsRemembered(env: Env, key: string, params: Option<SMap<string>>, vb1: SMap<string>, vb2: SMap<string>, st: ConvState)
    requires key !in st.converters && !HasId(params) && key in vb1.vals
    ensures var first := Locate(env, key, params, vb1, st);
      Locate(env, key, params, vb2, first.st) == first
  {
  }

  /** The converter cache of one converter instance. */
  class ConverterCache {
    var converters: map<string, nat>
    var bindings: map<string, string>

    constructor ()
      ensures converters == map[] && bindings == map[]
    {
      converters := map[];
      bindings := map[];
    }

    function State(): ConvState
      reads this
    {
      ConvState(converters, bindings)
    }

    /** determineConverter. */
    method DetermineConverter(key: string, convStrings: SMap<SMap<string>>, vbStrings: SMap<string>, env: Env)
      returns (r: Result<Option<nat>>)
        modifies this
      ensures Found(r, State()) == Determine(env, key, convStrings, vbStrings, old(State()))
    {
      var params := ParamsOf(convStrings, key);
      r := LocateConverter(key, params, vbStrings, env);
      if r.Err? || r.value.None? {
        return;
      }
      var c := r.value.value;
      converters := converters[key := c];
      if params.Some? {
        var e := Configure(c, params.value, env);
        if e.Some? {
          return Err(e.value);
        }
      }
    }

    /** The search of determineConverter. */
    method LocateConverter(key: string, params: Option<SMap<string>>, vbStrings: SMap<string>, env: Env)
      returns (r: Result<Option<nat>>)
      modifies this
      ensures Found(r, State()) == Locate(env, key, params, vbStrings, old(State()))
    {
      var c: Option<nat> := None;
      if key in converters {
        c := Some(converters[key]);
      } else if params.Some? && "id" in params.value.vals {
        var id := params.value.vals["id"];
        c := env.createConverter(id);
        if c.None? {
          return Fail(ConverterException, "Unable to create converter " + id);
        }
      } else {
        if key !in bindings && key in vbStrings.vals {
          bindings := bindings[key := vbStrings.vals[key]];
        }
        if key in bindings {
          var t := env.typeOf(bindings[key]);
          if t == "java.lang.Number" {
            c := env.createConverter("jakarta.faces.Number");
            if c.None? {
              return Fail(FacesException, "Cannot create converter jakarta.faces.Number");
            }
          } else {
            c := env.converterForType(t);
          }
        }
      }
      r := Ok(c);
    }
  }

  /** The attribute loop of determineConverter. */
  method Configure(c: nat, params: SMap<string>, env: Env) returns (e: Option<Exception>)
    ensures e == ConfigureFrom(env, c, params, 0, None, None)
  {
    var lang: Option<string> := None;
    var country: Option<string> := None;
    var i := 0;
    while i < |params.keys|
      invariant 0 <= i <= |params.keys|
      invariant ConfigureFrom(env, c, params, i, lang, country) == ConfigureFrom(env, c, params, 0, None, None)
    {
      var a := params.keys[i];
      if a !in params.vals {
      } else if a == "lang" {
        lang := Some(params.vals[a]);
      } else if a == "country" {
        country := Some(params.vals[a]);
      } else if a == "label" || a == "id" {
      } else if a == "timeZone" {
        var x := env.setTimeZone(c, params.vals[a]);
        if x.Some? {
          return x;
        }
      } else {
        var x := SetConverterAttribute(env, c, a, params.vals[a]);
        if x.Some? {
          return x;
        }
      }
      i := i + 1;
    }
    if lang.Some? {
      return env.setLocale(c, lang.value, country);
    }
    e := None;
  }
}
