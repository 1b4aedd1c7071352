/**
 * StoreUpdateValidator: validates the updates a grid store posts back. The updates are a
 * JSON tree; it is walked depth first, and every leaf below the second level is handed to
 * the validators the store's structure descriptor declares for the key it stands under.
 * Array elements stand under the key of the array; object members under their own name.
 * A validator spec may carry a label, which is put on the component while it runs.
 */
module UpdateValidator {
  import opened Values
  import opened Faces
  import opened ConverterBase

  // ---------------------------------------------------------------------------
  // Building the validators of a key

  /** The validators built so far for a key, and the exception that stopped the building, if any. */
  datatype Built = Built(list: seq<nat>, err: Option<Exception>)

  /**
   * One validator property set by reflection from a spec attribute: a missing property is
   * skipped, a property without a setter is a NullPointerException, and a value that cannot
   * be coerced or a setter that throws is an IllegalArgumentException.
   */
  function SetValidatorAttribute(env: Env, vid: nat, name: string, value: Value): (r: Option<Exception>)
    ensures env.property(vid, name).NoProperty? ==> r.None?
    ensures env.property(vid, name).ReadOnlyProperty? ==> r == Some(Exception(NullPointerException, None))
    ensures r.Some? ==> r.value.kind == IllegalArgumentException || r.value.kind == NullPointerException
    ensures env.property(vid, name).Writable? ==>
      var a := CoerceTo(env, env.property(vid, name).paramType, value);
      (r.None? <==> a.Ok? && env.setProperty(vid, name, a.value).None?)
    ensures env.property(vid, name).Writable? && value == Null ==> r.Some? && r.value.kind == NullPointerException
  {
    match env.property(vid, name)
    case NoProperty => None
    case ReadOnlyProperty => Some(Exception(NullPointerException, None))
    case Writable(t) =>
      match CoerceTo(env, t, value)
      case Err(e) =>
        if e.kind == IllegalArgumentException || e.kind == NullPointerException then Some(e)
        else Some(Exception(IllegalArgumentException, Some("ParseException invoking setter for " + name)))
      case Ok(a) =>
        match env.setProperty(vid, name, a)
        case Some(_) => Some(Exception(IllegalArgumentException, Some("InvocationTargetException invoking setter for " + name)))
        case None => None
  }

  /** An attribute of a spec that is set on its validator: every one but `label` and `id`. */
  predicate Configures(spec: SMap<Value>, a: string) {
    a != "label" && a != "id" && a in spec.vals
  }

  /** The spec attributes from position k set on the validator; `label` and `id` are skipped. */
  function ConfigureFrom(env: Env, vid: nat, spec: SMap<Value>, k: nat): (r: Option<Exception>)
    requires k <= |spec.keys|
    ensures r.Some? ==> r.value.kind == IllegalArgumentException || r.value.kind == NullPointerException
    decreases |spec.keys| - k
  {
    if k == |spec.keys| then None
    else
      var a := spec.keys[k];
      if a == "label" || a == "id" || a !in spec.vals then ConfigureFrom(env, vid, spec, k + 1)
      else match SetValidatorAttribute(env, vid, a, spec.vals[a])
        case Some(e) => Some(e)
        case None => ConfigureFrom(env, vid, spec, k + 1)
  }

  /**
   * Configuring succeeds exactly when every attribute it sets is set without an exception,
   * and a failure is the exception of the first attribute that fails.
   */
  lemma {:induction false} ConfigureFromSetsEach(env: Env, vid: nat, spec: SMap<Value>, k: nat)
    requires k <= |spec.keys|
    ensures var r := ConfigureFrom(env, vid, spec, k);
      r.None? <==> forall n :: (k <= n < |spec.keys| && Configures(spec, spec.keys[n]) ==>
                                 SetValidatorAttribute(env, vid, spec.keys[n], spec.vals[spec.keys[n]]).None?)
    ensures var r := ConfigureFrom(env, vid, spec, k);
      r.Some? ==> exists n :: (k <= n < |spec.keys| && Configures(spec, spec.keys[n]) &&
                                SetValidatorAttribute(env, vid, spec.keys[n], spec.vals[spec.keys[n]]) == r)
    decreases |spec.keys| - k
  {
    if k < |spec.keys| {
      ConfigureFromSetsEach(env, vid, spec, k + 1);
    }
  }

  /** The id of a spec: null when it has none. */
  function IdOf(spec: SMap<Value>): Value {
    if "id" in spec.vals then spec.vals["id"] else Null
  }

  /**
   * The validators of the specs from position i, appended to `acc`: a spec without an id
   * gives no validator; one whose id names no validator is a ValidatorException.
   */
  function BuildFrom(env: Env, specs: seq<SMap<Value>>, i: nat, acc: seq<nat>): (b: Built)
    requires i <= |specs|
    ensures |acc| <= |b.list| <= |acc| + |specs| - i
    ensures b.list[..|acc|] == acc
    decreases |specs| - i
  {
    if i == |specs| then Built(acc, None)
    else
      var id := IdOf(specs[i]);
      if id == Null then BuildFrom(env, specs, i + 1, acc)
      else if !id.Str? then Built(acc, Some(Exception(ClassCastException, Some("validator id is not a String"))))
      else match env.createValidator(id.s)
        case None => Built(acc, Some(Exception(ValidatorException, Some("Unable to create validator " + id.s))))
        case Some(vid) =>
          match ConfigureFrom(env, vid, specs[i], 0)
          case Some(e) => Built(acc + [vid], Some(e))
          case None =>
            assert (acc + [vid])[..|acc|] == acc;
            var b := BuildFrom(env, specs, i + 1, acc + [vid]);
            assert b.list[..|acc|] == b.list[..|acc| + 1][..|acc|];
            b
  }

  /** With every spec naming a validator that is created and configured, there is one validator per spec, in order. */
  lemma {:induction false} OneValidatorPerSpec(env: Env, specs: seq<SMap<Value>>, i: nat, acc: seq<nat>)
    requires i <= |specs|
    requires forall j :: i <= j < |specs| ==>
      IdOf(specs[j]).Str? && env.createValidator(IdOf(specs[j]).s).Some?
      && ConfigureFrom(env, env.createValidator(IdOf(specs[j]).s).value, specs[j], 0).None?
    ensures var b := BuildFrom(env, specs, i, acc);
      b.err.None? && |b.list| == |acc| + |specs| - i
      && forall j :: i <= j < |specs| ==> b.list[|acc| + j - i] == env.createValidator(IdOf(specs[j]).s).value
    decreases |specs| - i
  {
    if i < |specs| {
      var vid := env.createValidator(IdOf(specs[i]).s).value;
      OneValidatorPerSpec(env, specs, i + 1, acc + [vid]);
      var b := BuildFrom(env, specs, i + 1, acc + [vid]);
      assert b.list[|acc|] == b.list[..|acc| + 1][|acc|] == vid;
    }
  }

  // ---------------------------------------------------------------------------
  // The state a validation changes

  /** The validator lists built so far, by key, and the component's attributes. */
  datatype VState = VState(cache: map<string, seq<nat>>, attrs: map<string, Value>)

  /** A result, or the exception that stopped the validation, and the state after it. */
  datatype Checked<T> = Checked(r: Result<T>, st: VState)

  /** Each cached list belongs to a key with specs, and is no longer than those specs. */
  predicate CacheFits(specs: SMap<seq<SMap<Value>>>, cache: map<string, seq<nat>>) {
    forall k :: k in cache ==> k in specs.vals && |cache[k]| <= |specs.vals[k]|
  }

  /**
   * determineValidators: the list cached for the key, or the list built from the key's specs,
   * cached before it is filled; null when the key has no specs.
   */
  function DetermineValidators(env: Env, specs: SMap<seq<SMap<Value>>>, key: string, st: VState): (o: Checked<Option<seq<nat>>>)
    ensures key in st.cache ==> o == Checked(Ok(Some(st.cache[key])), st)
    ensures key !in st.cache && key !in specs.vals ==> o == Checked(Ok(None), st)
    ensures o.st.attrs == st.attrs && st.cache.Keys <= o.st.cache.Keys
    ensures o.r.Ok? && o.r.value.Some? ==> key in o.st.cache && o.r.value.value == o.st.cache[key]
    ensures CacheFits(specs, st.cache) ==> CacheFits(specs, o.st.cache)
  {
    if key in st.cache then Checked(Ok(Some(st.cache[key])), st)
    else if key !in specs.vals then Checked(Ok(None), st)
    else
      var b := BuildFrom(env, specs.vals[key], 0, []);
      var st1 := st.(cache := st.cache[key := b.list]);
      if b.err.Some? then Checked(Err(b.err.value), st1) else Checked(Ok(Some(b.list)), st1)
  }

  /** A key's validators are built once: asking again returns the same list and changes nothing. */
  lemma DetermineValidatorsIsCached(env: Env, specs: SMap<seq<SMap<Value>>>, key: string, st: VState)
    requires DetermineValidators(env, specs, key, st).r.Ok?
    ensures var o := DetermineValidators(env, specs, key, st);
      DetermineValidators(env, specs, key, o.st) == (if o.r.value.Some? then o else Checked(Ok(None), st))
  {
  }

  /** The label value put back after a validator: the spec label, or null. */
  function LabelValue(l: Option<string>): Value {
    if l.Some? then Str(l.value) else Null
  }

  /**
   * The label a spec sets: its `label` when that is present and not null; a label that is
   * not a String is a ClassCastException.
   */
  function SpecLabel(spec: SMap<Value>): (r: Result<Option<string>>)
    ensures r.Ok? && r.value.Some? <==> "label" in spec.vals && spec.vals["label"].Str?
  {
    if "label" !in spec.vals || spec.vals["label"] == Null then Ok(None)
    else if spec.vals["label"].Str? then Ok(Some(spec.vals["label"].s))
    else Fail(ClassCastException, "label is not a String")
  }

  /**
   * The component's attributes after one validator ran: with no label before, a label the
   * spec set is removed again; with a label before, the label becomes the spec's label,
   * or null, whatever it was.
   */
  function AfterValidator(attrs: map<string, Value>, previous: Option<string>, newLabel: Option<string>): map<string, Value> {
    if previous.None? then (if newLabel.Some? then attrs - {"label"} else attrs)
    else attrs["label" := LabelValue(newLabel)]
  }

  /**
   * The validators vs[i..] on a leaf, in order. The i-th validator runs with the i-th spec
   * of the key, whatever spec it was built from (there are never more validators than
   * specs). The first failure stops them.
   */
  function RunFrom(env: Env, vs: seq<nat>, params: seq<SMap<Value>>, i: nat, v: Value, attrs: map<string, Value>)
    : (o: (Result<()>, map<string, Value>))
    requires i <= |vs| <= |params|
    ensures o.0.Ok? ==> o.0 == Ok(())
    decreases |vs| - i
  {
    if i == |vs| then (Ok(()), attrs)
    else match StringAttr(attrs, "label")
      case Err(e) => (Err(e), attrs)
      case Ok(previous) =>
        match SpecLabel(params[i])
        case Err(e) => (Err(e), attrs)
        case Ok(newLabel) =>
          var during := if newLabel.Some? then attrs["label" := Str(newLabel.value)] else attrs;
          match env.validate(vs[i], during, v)
          case Some(e) => (Err(e), during)
          case None => RunFrom(env, vs, params, i + 1, v, AfterValidator(during, previous, newLabel))
  }

  /** The validation of one leaf under a key: none without a key or specs for it. */
  function Leaf(env: Env, specs: SMap<seq<SMap<Value>>>, key: Option<string>, v: Value, st: VState): (o: Checked<()>)
    requires CacheFits(specs, st.cache)
    ensures CacheFits(specs, o.st.cache) && st.cache.Keys <= o.st.cache.Keys
    ensures o.r.Ok? ==> o.r == Ok(())
  {
    if key.None? then Checked(Ok(()), st)
    else
      var d := DetermineValidators(env, specs, key.value, st);
      match d.r
      case Err(e) => Checked(Err(e), d.st)
      case Ok(None) => Checked(Ok(()), d.st)
      case Ok(Some(vs)) =>
        var run := RunFrom(env, vs, specs.vals[key.value], 0, v, d.st.attrs);
        Checked(run.0, d.st.(attrs := run.1))
  }

  // ---------------------------------------------------------------------------
  // The walk

  /**
   * The recursive validate: `depth` is the depth of the caller, one more is this value's.
   * Objects and arrays are descended into; other values are validated below depth two.
   */
  function Walk(env: Env, specs: SMap<seq<SMap<Value>>>, key: Option<string>, v: Value, depth: nat, st: VState)
    : (o: Checked<()>)
    requires CacheFits(specs, st.cache)
    ensures CacheFits(specs, o.st.cache)
    decreases v, 1
  {
    match v
    case Obj(fs) => Members(env, specs, fs, 0, depth + 1, st)
    case Arr(es) => Elements(env, specs, key, es, 0, depth + 1, st)
    case _ => if depth + 1 > 2 then Leaf(env, specs, key, v, st) else Checked(Ok(()), st)
  }

  /** The members fs[j..] of an object, each under its own name. */
  function Members(env: Env, specs: SMap<seq<SMap<Value>>>, fs: seq<Field>, j: nat, depth: nat, st: VState): (o: Checked<()>)
    requires j <= |fs| && CacheFits(specs, st.cache)
    ensures CacheFits(specs, o.st.cache)
    decreases Obj(fs), 0, |fs| - j
  {
    if j == |fs| then Checked(Ok(()), st)
    else
      assert fs[j] in fs;
      var m := Walk(env, specs, Some(fs[j].name), fs[j].val, depth, st);
      if m.r.Err? then m else Members(env, specs, fs, j + 1, depth, m.st)
  }

  /** The elements es[i..] of an array, each under the array's key; a missing element is a JSONException. */
  function Elements(env: Env, specs: SMap<seq<SMap<Value>>>, key: Option<string>, es: seq<Value>, i: nat, depth: nat, st: VState)
    : (o: Checked<()>)
    requires i <= |es| && CacheFits(specs, st.cache)
    ensures CacheFits(specs, o.st.cache)
    decreases Arr(es), 0, |es| - i
  {
    if i == |es| then Checked(Ok(()), st)
    else match ArrayGet(es, i)
      case Err(e) => Checked(Err(e), st)
      case Ok(x) =>
        var m := Walk(env, specs, key, x, depth, st);
        if m.r.Err? then m else Elements(env, specs, key, es, i + 1, depth, m.st)
  }

  // ---------------------------------------------------------------------------
  // The leaves a walk visits

  /** A leaf handed to the validators under a key, or a missing array element. */
  datatype Target = Check(key: Option<string>, leaf: Value) | Missing(e: Exception)

  /** The leaves of a value in walk order, with the keys they are validated under. */
  function Targets(key: Option<string>, v: Value, depth: nat): (ts: seq<Target>)
    ensures forall t :: t in ts && t.Check? ==> !t.leaf.Obj? && !t.leaf.Arr?
    decreases v, 1
  {
    match v
    case Obj(fs) => MemberTargets(fs, 0, depth + 1)
    case Arr(es) => ElementTargets(key, es, 0, depth + 1)
    case _ => if depth + 1 > 2 then [Check(key, v)] else []
  }

  function MemberTargets(fs: seq<Field>, j: nat, depth: nat): (ts: seq<Target>)
    requires j <= |fs|
    ensures forall t :: t in ts && t.Check? ==> !t.leaf.Obj? && !t.leaf.Arr?
    decreases Obj(fs), 0, |fs| - j
  {
    if j == |fs| then []
    else
      assert fs[j] in fs;
      Targets(Some(fs[j].name), fs[j].val, depth) + MemberTargets(fs, j + 1, depth)
  }

  function ElementTargets(key: Option<string>, es: seq<Value>, i: nat, depth: nat): (ts: seq<Target>)
    requires i <= |es|
    ensures forall t :: t in ts && t.Check? ==> !t.leaf.Obj? && !t.leaf.Arr?
    decreases Arr(es), 0, |es| - i
  {
    if i == |es| then []
    else match ArrayGet(es, i)
      case Err(e) => [Missing(e)]
      case Ok(x) => Targets(key, x, depth) + ElementTargets(key, es, i + 1, depth)
  }

  /** Validating a list of leaves in order; the first failure or missing element stops it. */
  function RunAll(env: Env, specs: SMap<seq<SMap<Value>>>, ts: seq<Target>, st: VState): (o: Checked<()>)
    requires CacheFits(specs, st.cache)
    ensures CacheFits(specs, o.st.cache)
    decreases |ts|
  {
    if |ts| == 0 then Checked(Ok(()), st)
    else match ts[0]
      case Missing(e) => Checked(Err(e), st)
      case Check(k, x) =>
        var m := Leaf(env, specs, k, x, st);
        if m.r.Err? then m else RunAll(env, specs, ts[1..], m.st)
  }

  /** Validating two lists of leaves one after the other. */
  lemma {:induction false} RunAllAppend(env: Env, specs: SMap<seq<SMap<Value>>>, a: seq<Target>, b: seq<Target>, st: VState)
    requires CacheFits(specs, st.cache)
    ensures var m := RunAll(env, specs, a, st);
      RunAll(env, specs, a + b, st) == if m.r.Err? then m else RunAll(env, specs, b, m.st)
    decreases |a|
  {
    if |a| > 0 {
      assert (a + b)[0] == a[0];
      assert (a + b)[1..] == a[1..] + b;
      if a[0].Check? {
        var m := Leaf(env, specs, a[0].key, a[0].leaf, st);
        assert RunAll(env, specs, a, st) == if m.r.Err? then m else RunAll(env, specs, a[1..], m.st);
        assert RunAll(env, specs, a + b, st) == if m.r.Err? then m else RunAll(env, specs, a[1..] + b, m.st);
        if m.r.Ok? {
          RunAllAppend(env, specs, a[1..], b, m.st);
        }
      }
    } else {
      assert a + b == b;
    }
  }

  /**
   * The walk validates exactly the leaves Targets lists, in that order: leaves at depth
   * greater than two, array elements under the key of their array, members under their name.
   */
  lemma {:induction false} WalkValidatesTargets(env: Env, specs: SMap<seq<SMap<Value>>>, key: Option<string>, v: Value, depth: nat, st: VState)
    requires CacheFits(specs, st.cache)
    ensures Walk(env, specs, key, v, depth, st) == RunAll(env, specs, Targets(key, v, depth), st)
    decreases v, 1
  {
    if v.Obj? {
      MembersValidateTargets(env, specs, v.fields, 0, depth + 1, st);
    } else if v.Arr? {
      ElementsValidateTargets(env, specs, key, v.elems, 0, depth + 1, st);
    } else if depth + 1 > 2 {
      assert Targets(key, v, depth) == [Check(key, v)];
      assert [Check(key, v)][1..] == [];
      var m := Leaf(env, specs, key, v, st);
      assert Walk(env, specs, key, v, depth, st) == m;
    }
  }

  lemma {:induction false} MembersValidateTargets(env: Env, specs: SMap<seq<SMap<Value>>>, fs: seq<Field>, j: nat, depth: nat, st: VState)
    requires j <= |fs| && CacheFits(specs, st.cache)
    ensures Members(env, specs, fs, j, depth, st) == RunAll(env, specs, MemberTargets(fs, j, depth), st)
    decreases Obj(fs), 0, |fs| - j
  {
    if j < |fs| {
      assert fs[j] in fs;
      var a := Targets(Some(fs[j].name), fs[j].val, depth);
      WalkValidatesTargets(env, specs, Some(fs[j].name), fs[j].val, depth, st);
      RunAllAppend(env, specs, a, MemberTargets(fs, j + 1, depth), st);
      var m := Walk(env, specs, Some(fs[j].name), fs[j].val, depth, st);
      if m.r.Ok? {
        MembersValidateTargets(env, specs, fs, j + 1, depth, m.st);
      }
    }
  }

  lemma {:induction false} ElementsValidateTargets(env: Env, specs: SMap<seq<SMap<Value>>>, key: Option<string>, es: seq<Value>, i: nat,
                                                 depth: nat, st: VState)
    requires i <= |es| && CacheFits(specs, st.cache)
    ensures Elements(env, specs, key, es, i, depth, st) == RunAll(env, specs, ElementTargets(key, es, i, depth), st)
    decreases Arr(es), 0, |es| - i
  {
    if i < |es| && es[i] != Null {
      var a := Targets(key, es[i], depth);
      WalkValidatesTargets(env, specs, key, es[i], depth, st);
      RunAllAppend(env, specs, a, ElementTargets(key, es, i + 1, depth), st);
      var m := Walk(env, specs, key, es[i], depth, st);
      if m.r.Ok? {
        ElementsValidateTargets(env, specs, key, es, i + 1, depth, m.st);
      }
    }
  }

  /** A leaf on the first two levels is never validated. */
  lemma ShallowLeafIsSkipped(env: Env, specs: SMap<seq<SMap<Value>>>, key: Option<string>, v: Value, depth: nat, st: VState)
    requires CacheFits(specs, st.cache)
    requires !v.Obj? && !v.Arr? && depth < 2
    ensures Targets(key, v, depth) == []
    ensures Walk(env, specs, key, v, depth, st) == Checked(Ok(()), st)
  {
  }

  /** A nested array passes its key down to the leaves inside it. */
  lemma {:induction false} ArrayKeepsKey(key: Option<string>, es: seq<Value>, i: nat, depth: nat)
    requires i <= |es|
    requires forall j :: i <= j < |es| ==> es[j] != Null && !es[j].Obj? && !es[j].Arr?
    requires depth + 1 > 2
    ensures var ts := ElementTargets(key, es, i, depth + 1);
      |ts| == |es| - i && forall j :: 0 <= j < |ts| ==> ts[j] == Check(key, es[i + j])
    decreases |es| - i
  {
    if i < |es| {
      ArrayKeepsKey(key, es, i + 1, depth);
      var rest := ElementTargets(key, es, i + 1, depth + 1);
      assert Targets(key, es[i], depth + 1) == [Check(key, es[i])];
      assert ElementTargets(key, es, i, depth + 1) == [Check(key, es[i])] + rest;
    }
  }

  // ---------------------------------------------------------------------------
  // Labels and the order of validators

  /**
   * One validator whose spec sets label l: it runs with l as the component's label; afterwards
   * the label is removed when there was none before, and stays l (it is not restored) when
   * there was one.
   */
  lemma SpecLabelDuringAndAfter(env: Env, vid: nat, spec: SMap<Value>, v: Value, attrs: map<string, Value>, l: string)
    requires SpecLabel(spec) == Ok(Some(l)) && StringAttr(attrs, "label").Ok?
    ensures var o := RunFrom(env, [vid], [spec], 0, v, attrs);
      var during := attrs["label" := Str(l)];
      && (env.validate(vid, during, v).Some? ==> o == (Err(env.validate(vid, during, v).value), during))
      && (env.validate(vid, during, v).None? && StringAttr(attrs, "label").value.None? ==> o == (Ok(()), during - {"label"}))
      && (env.validate(vid, during, v).None? && StringAttr(attrs, "label").value.Some? ==> o == (Ok(()), during))
  {
    var during := attrs["label" := Str(l)];
    assert during["label" := LabelValue(Some(l))] == during;
  }

  /** One validator whose spec sets no label, on a component that had one: the label is cleared to null. */
  lemma PreviousLabelIsCleared(env: Env, vid: nat, spec: SMap<Value>, v: Value, attrs: map<string, Value>, p: string)
    requires SpecLabel(spec) == Ok(None) && StringAttr(attrs, "label") == Ok(Some(p))
    requires env.validate(vid, attrs, v).None?
    ensures RunFrom(env, [vid], [spec], 0, v, attrs) == (Ok(()), attrs["label" := Null])
  {
  }

  /**
   * A spec without an id yields no validator, so the validators that follow run with the
   * spec before theirs: with specs [s0, s1] and only s1 naming a validator, that validator
   * runs with s0's label, not with s1's.
   */
  lemma MissingIdShiftsSpecs(env: Env, s0: SMap<Value>, s1: SMap<Value>, v: Value, attrs: map<string, Value>)
    requires IdOf(s0) == Null && IdOf(s1).Str? && env.createValidator(IdOf(s1).s).Some?
    requires ConfigureFrom(env, env.createValidator(IdOf(s1).s).value, s1, 0).None?
    requires SpecLabel(s0) == Ok(None) && StringAttr(attrs, "label") == Ok(None)
    ensures var vid := env.createValidator(IdOf(s1).s).value;
      && BuildFrom(env, [s0, s1], 0, []) == Built([vid], None)
      && RunFrom(env, [vid], [s0, s1], 0, v, attrs).0 == (if env.validate(vid, attrs, v).Some? then Err(env.validate(vid, attrs, v).value) else Ok(()))
  {
    var vid := env.createValidator(IdOf(s1).s).value;
    assert [s0, s1][1] == s1;
    assert BuildFrom(env, [s0, s1], 1, []) == BuildFrom(env, [s0, s1], 2, [vid]);
  }

  /** The first validator to fail stops the others: its exception is the result. */
  lemma {:induction false} FirstFailureWins(env: Env, vs: seq<nat>, params: seq<SMap<Value>>, i: nat, v: Value, attrs: map<string, Value>)
    requires i < |vs| <= |params|
    requires StringAttr(attrs, "label").Ok? && SpecLabel(params[i]) == Ok(None)
    requires env.validate(vs[i], attrs, v).Some?
    ensures RunFrom(env, vs, params, i, v, attrs) == (Err(env.validate(vs[i], attrs, v).value), attrs)
  {
  }

  // ---------------------------------------------------------------------------
  // validate

  /** The exception validate throws for a failure: a ValidatorException as it is, anything else wrapped with its message. */
  function AsValidatorException(e: Exception): (r: Exception)
    ensures r.kind == ValidatorException && r.message == e.message
    ensures e.kind == ValidatorException ==> r == e
  {
    if e.kind == ValidatorException then e else Exception(ValidatorException, e.message)
  }

  /** What validate leaves behind: its result, the component's attributes and the structure cache. */
  datatype Validated = Validated(r: Result<()>, attrs: map<string, Value>, structures: map<string, seq<Field>>)

  /**
   * validate: null is valid; otherwise the structure attribute gives the validator specs and
   * the value is walked from depth zero with an empty validator cache. A structure attribute
   * that is not a String fails outside the try block; every other failure is a ValidatorException.
   */
  function ValidateOutcome(env: Env, attrs: map<string, Value>, structures: map<string, seq<Field>>, value: Value): (o: Validated)
    ensures value == Null ==> o == Validated(Ok(()), attrs, structures)
    ensures o.r.Err? ==>
      (o.r.error.kind == ValidatorException
       || (StringAttr(attrs, "structure").Err? && o == Validated(Err(StringAttr(attrs, "structure").error), attrs, structures)))
    ensures structures.Keys <= o.structures.Keys
  {
    if value == Null then Validated(Ok(()), attrs, structures)
    else match StringAttr(attrs, "structure")
      case Err(e) => Validated(Err(e), attrs, structures)
      case Ok(structure) =>
        var tk := TokenizeSpec(env, structures, structure, Sinks(None, None, None, None, Some(EmptyMap())));
        if tk.step.err.Some? then Validated(Err(AsValidatorException(tk.step.err.value)), attrs, tk.cache)
        else
          var w := Walk(env, tk.step.out.validators.value, None, value, 0, VState(map[], attrs));
          Validated(if w.r.Err? then Err(AsValidatorException(w.r.error)) else Ok(()), w.st.attrs, tk.cache)
  }

  /** Without validator specs nothing is validated, and a walk that meets no missing element succeeds and changes nothing. */
  lemma {:induction false} NoSpecsNoChecks(env: Env, specs: SMap<seq<SMap<Value>>>, ts: seq<Target>, st: VState)
    requires specs.vals == map[] && st.cache == map[]
    requires forall t :: t in ts ==> t.Check?
    ensures RunAll(env, specs, ts, st) == Checked(Ok(()), st)
    decreases |ts|
  {
    if |ts| > 0 {
      assert ts[0] in ts;
      forall t | t in ts[1..] ensures t.Check? {
        assert t in ts;
      }
      NoSpecsNoChecks(env, specs, ts[1..], st);
    }
  }

  // ---------------------------------------------------------------------------
  // The validator, over the component and the validator cache

  /** The validators map of one validate call. */
  class ValidatorCache {
    var validators: map<string, seq<nat>>

    constructor ()
      ensures validators == map[]
    {
      validators := map[];
    }

    /** determineValidators. */
    method DetermineFor(env: Env, specs: SMap<seq<SMap<Value>>>, key: string, attrs: map<string, Value>)
      returns (r: Result<Option<seq<nat>>>)
      modifies this
      ensures Checked(r, VState(validators, attrs)) == DetermineValidators(env, specs, key, old(VState(validators, attrs)))
    {
      if key in validators {
        return Ok(Some(validators[key]));
      }
      if key !in specs.vals {
        return Ok(None);
      }
      var b := BuildValidators(env, specs.vals[key]);
      validators := validators[key := b.list];
      r := if b.err.Some? then Err(b.err.value) else Ok(Some(b.list));
    }
  }

  /** The loop of determineValidators over the specs of a key. */
  method BuildValidators(env: Env, specs: seq<SMap<Value>>) returns (b: Built)
    ensures b == BuildFrom(env, specs, 0, [])
  {
    var list := [];
    var i := 0;
    while i < |specs|
      invariant 0 <= i <= |specs|
      invariant BuildFrom(env, specs, i, list) == BuildFrom(env, specs, 0, [])
    {
      var id := IdOf(specs[i]);
      if id != Null {
        if !id.Str? {
          return Built(list, Some(Exception(ClassCastException, Some("validator id is not a String"))));
        }
        var vid := env.createValidator(id.s);
        if vid.None? {
          return Built(list, Some(Exception(ValidatorException, Some("Unable to create validator " + id.s))));
        }
        list := list + [vid.value];
        var e := Configure(env, vid.value, specs[i]);
        if e.Some? {
          return Built(list, e);
        }
      }
      i := i + 1;
    }
    b := Built(list, None);
  }

  /** The loop over a spec's attributes, setting each on the validator. */
  method Configure(env: Env, vid: nat, spec: SMap<Value>) returns (e: Option<Exception>)
    ensures e == ConfigureFrom(env, vid, spec, 0)
  {
    var k := 0;
    while k < |spec.keys|
      invariant 0 <= k <= |spec.keys|
      invariant ConfigureFrom(env, vid, spec, k) == ConfigureFrom(env, vid, spec, 0)
    {
      var a := spec.keys[k];
      if a != "label" && a != "id" && a in spec.vals {
        var x := SetValidatorAttribute(env, vid, a, spec.vals[a]);
        if x.Some? {
          return x;
        }
      }
      k := k + 1;
    }
    e := None;
  }

  /** The state a validation changes, as the cache and the component hold it. */
  function Now(comp: UIComponent, cache: ValidatorCache): VState
    reads comp, cache
  {
    VState(cache.validators, comp.attributes)
  }

  /** The validators of a leaf, in order, with the label handling around each. */
  method RunValidators(env: Env, vs: seq<nat>, params: seq<SMap<Value>>, v: Value, comp: UIComponent) returns (r: Result<()>)
    requires |vs| <= |params|
    modifies comp`attributes
    ensures (r, comp.attributes) == RunFrom(env, vs, params, 0, v, old(comp.attributes))
  {
    ghost var goal := RunFrom(env, vs, params, 0, v, comp.attributes);
    var i := 0;
    while i < |vs|
      invariant 0 <= i <= |vs|
      invariant RunFrom(env, vs, params, i, v, comp.attributes) == goal
    {
      var previous := StringAttr(comp.attributes, "label");
      if previous.Err? {
        return Err(previous.error);
      }
      var newLabel := SpecLabel(params[i]);
      if newLabel.Err? {
        return Err(newLabel.error);
      }
      if newLabel.value.Some? {
        comp.attributes := comp.attributes["label" := Str(newLabel.value.value)];
      }
      var failure := env.validate(vs[i], comp.attributes, v);
      if failure.Some? {
        return Err(failure.value);
      }
      if previous.value.None? {
        if newLabel.value.Some? {
          comp.attributes := comp.attributes - {"label"};
        }
      } else {
        comp.attributes := comp.attributes["label" := LabelValue(newLabel.value)];
      }
      i := i + 1;
    }
    r := Ok(());
  }

  /** A leaf below the second level: its key's validators, if it has any. */
  method CheckLeaf(env: Env, specs: SMap<seq<SMap<Value>>>, key: Option<string>, v: Value, comp: UIComponent, cache: ValidatorCache)
    returns (r: Result<()>)
    requires CacheFits(specs, cache.validators)
    modifies comp`attributes, cache
    ensures Checked(r, Now(comp, cache)) == Leaf(env, specs, key, v, old(Now(comp, cache)))
  {
    if key.None? {
      return Ok(());
    }
    var d := cache.DetermineFor(env, specs, key.value, comp.attributes);
    if d.Err? {
      return Err(d.error);
    }
    if d.value.None? {
      return Ok(());
    }
    r := RunValidators(env, d.value.value, specs.vals[key.value], v, comp);
  }

  /** The recursive validate. */
  method WalkOf(env: Env, specs: SMap<seq<SMap<Value>>>, key: Option<string>, v: Value, depth: nat, comp: UIComponent, cache: ValidatorCache)
    returns (r: Result<()>)
    requires CacheFits(specs, cache.validators)
    modifies comp`attributes, cache
    ensures CacheFits(specs, cache.validators)
    ensures Checked(r, Now(comp, cache)) == Walk(env, specs, key, v, depth, old(Now(comp, cache)))
    decreases v, 1
  {
    if v.Obj? {
      r := MembersOf(env, specs, v.fields, depth + 1, comp, cache);
    } else if v.Arr? {
      r := ElementsOf(env, specs, key, v.elems, depth + 1, comp, cache);
    } else if depth + 1 > 2 {
      r := CheckLeaf(env, specs, key, v, comp, cache);
    } else {
      r := Ok(());
    }
  }

  /** The members of an object, each under its own name. */
  method MembersOf(env: Env, specs: SMap<seq<SMap<Value>>>, fs: seq<Field>, depth: nat, comp: UIComponent, cache: ValidatorCache)
    returns (r: Result<()>)
    requires CacheFits(specs, cache.validators)
    modifies comp`attributes, cache
    ensures CacheFits(specs, cache.validators)
    ensures Checked(r, Now(comp, cache)) == Members(env, specs, fs, 0, depth, old(Now(comp, cache)))
    decreases Obj(fs), 0
  {
    ghost var goal := Members(env, specs, fs, 0, depth, Now(comp, cache));
    var j := 0;
    while j < |fs|
      invariant 0 <= j <= |fs| && CacheFits(specs, cache.validators)
      invariant Members(env, specs, fs, j, depth, Now(comp, cache)) == goal
    {
      assert fs[j] in fs;
      var m := WalkOf(env, specs, Some(fs[j].name), fs[j].val, depth, comp, cache);
      if m.Err? {
        return m;
      }
      j := j + 1;
    }
    r := Ok(());
  }

  /** The elements of an array, under the array's key. */
  method ElementsOf(env: Env, specs: SMap<seq<SMap<Value>>>, key: Option<string>, es: seq<Value>, depth: nat, comp: UIComponent, cache: ValidatorCache)
    returns (r: Result<()>)
    requires CacheFits(specs, cache.validators)
    modifies comp`attributes, cache
    ensures CacheFits(specs, cache.validators)
    ensures Checked(r, Now(comp, cache)) == Elements(env, specs, key, es, 0, depth, old(Now(comp, cache)))
    decreases Arr(es), 0
  {
    ghost var goal := Elements(env, specs, key, es, 0, depth, Now(comp, cache));
    var i := 0;
    while i < |es|
      invariant 0 <= i <= |es| && CacheFits(specs, cache.validators)
      invariant Elements(env, specs, key, es, i, depth, Now(comp, cache)) == goal
    {
      var x := ArrayGet(es, i);
      if x.Err? {
        return Err(x.error);
      }
      var m := WalkOf(env, specs, key, x.value, depth, comp, cache);
      if m.Err? {
        return m;
      }
      i := i + 1;
    }
    r := Ok(());
  }

  /** StoreUpdateValidator.validate. */
  method Validate(env: Env, comp: UIComponent, value: Value, structures: StructureCache) returns (r: Result<()>)
    requires structures.Valid()
    modifies comp`attributes, structures
    ensures structures.Valid()
    ensures Validated(r, comp.attributes, structures.cache) == ValidateOutcome(env, old(comp.attributes), old(structures.cache), value)
  {
    if value == Null {
      return Ok(());
    }
    var structure := StringAttr(comp.attributes, "structure");
    if structure.Err? {
      return Err(structure.error);
    }
    var step := structures.Tokenize(structure.value, Sinks(None, None, None, None, Some(EmptyMap())), env);
    if step.err.Some? {
      return Err(AsValidatorException(step.err.value));
    }
    var cache := new ValidatorCache();
    var w := WalkOf(env, step.out.validators.value, None, value, 0, comp, cache);
    r := if w.Err? then Err(AsValidatorException(w.error)) else Ok(());
  }
}
