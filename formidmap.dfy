/**
 * FormIdMap: the client id of the form that encloses a bound component, found by walking up
 * the parent chain from the component itself; a component outside every form is an error.
 */
module FormIds {
  import opened Values
  import opened Faces

  /** The component and its ancestors, nearest first. */
  ghost function Chain(c: UIComponent): (r: seq<UIComponent>)
    requires Rooted(c)
    ensures |r| > 0 && r[0] == c
    decreases c.depth
  {
    if c.parent == null then [c] else [c] + Chain(c.parent)
  }

  /** The nearest component among `c` and its ancestors that is a UIForm, or null. */
  function NearestForm(c: UIComponent): (f: UIComponent?)
    requires Rooted(c)
    ensures f != null ==> f.isForm
    ensures c.isForm ==> f == c
    decreases c.depth
  {
    if c.isForm then c
    else if c.parent == null then null
    else NearestForm(c.parent)
  }

  /**
   * NearestForm is the first form of the chain: null when the chain holds no form, and
   * otherwise an element of the chain with no form before it.
   */
  lemma {:induction false} NearestFormIsFirstInChain(c: UIComponent)
    requires Rooted(c)
    ensures NearestForm(c) == null ==> forall i :: 0 <= i < |Chain(c)| ==> !Chain(c)[i].isForm
    ensures NearestForm(c) != null ==>
      exists k :: 0 <= k < |Chain(c)| && Chain(c)[k] == NearestForm(c) && forall i :: 0 <= i < k ==> !Chain(c)[i].isForm
    decreases c.depth
  {
    var ch := Chain(c);
    if c.isForm {
      assert ch[0] == NearestForm(c);
    } else if c.parent != null {
      NearestFormIsFirstInChain(c.parent);
      var tail := Chain(c.parent);
      assert ch == [c] + tail;
      assert NearestForm(c) == NearestForm(c.parent);
      forall i | 0 < i < |ch|
        ensures ch[i] == tail[i - 1]
      {
      }
      if NearestForm(c) != null {
        var k :| 0 <= k < |tail| && tail[k] == NearestForm(c) && forall i :: 0 <= i < k ==> !tail[i].isForm;
        assert ch[k + 1] == NearestForm(c);
        forall i | 0 <= i < k + 1
          ensures !ch[i].isForm
        {
          if i > 0 {
            assert ch[i] == tail[i - 1];
          }
        }
      }
    }
  }

  /** FormIdMap.get(id). */
  function FormIdOf(bindings: map<string, UIComponent>, id: Value): (r: Result<Option<string>>)
    requires forall k :: k in bindings ==> Rooted(bindings[k])
    ensures r == Ok(None) <==> Bound(bindings, id) == null
    ensures r.Err? ==> r.error == Exception(RuntimeException, Some("tag must be nested inside a form"))
    ensures r.Err? <==> Bound(bindings, id) != null && NearestForm(Bound(bindings, id)) == null
    ensures r.Ok? && r.value.Some? ==> var c := Bound(bindings, id);
      c != null && NearestForm(c) != null && r.value.value == NearestForm(c).clientId
  {
    var c := Bound(bindings, id);
    if c == null then Ok(None)
    else
      var form := NearestForm(c);
      if form == null then Fail(RuntimeException, "tag must be nested inside a form")
      else Ok(Some(form.clientId))
  }

  /** A bound form reports its own client id. */
  lemma FormReportsItself(bindings: map<string, UIComponent>, id: string)
    requires forall k :: k in bindings ==> Rooted(bindings[k])
    requires id in bindings && bindings[id].isForm
    ensures FormIdOf(bindings, Str(id)) == Ok(Some(bindings[id].clientId))
  {
  }

  /** A component directly inside a form reports the form's id. */
  lemma ChildOfFormReportsForm(bindings: map<string, UIComponent>, id: string)
    requires forall k :: k in bindings ==> Rooted(bindings[k])
    requires id in bindings && !bindings[id].isForm
    requires bindings[id].parent != null && bindings[id].parent.isForm
    ensures FormIdOf(bindings, Str(id)) == Ok(Some(bindings[id].parent.clientId))
  {
  }

  class FormIdMap {
    const bindings: map<string, UIComponent>

    ghost predicate Valid() {
      forall k :: k in bindings ==> Rooted(bindings[k])
    }

    constructor (bindings: map<string, UIComponent>)
      requires forall k :: k in bindings ==> Rooted(bindings[k])
      ensures Valid() && this.bindings == bindings
    {
      this.bindings := bindings;
    }

    /** FormIdMap.get: the walk up the parent chain. */
    method Get(id: Value) returns (r: Result<Option<string>>)
      requires Valid()
      ensures r == FormIdOf(bindings, id)
    {
      var c := Bound(bindings, id);
      if c == null {
        return Ok(None);
      }
      var form: UIComponent? := c;
      while form != null && !form.isForm
        invariant form != null ==> Rooted(form) && NearestForm(form) == NearestForm(c)
        invariant form == null ==> NearestForm(c) == null
        decreases if form == null then 0 else form.depth + 1
      {
        form := form.parent;
      }
      if form == null {
        return Fail(RuntimeException, "tag must be nested inside a form");
      }
      r := Ok(Some(form.clientId));
    }
  }
}
