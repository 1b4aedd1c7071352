/**
 * ExecMap: an EL map bean that keeps an action for a later `trigger`. `get` with a method
 * expression `#{...}` binds it; any other String becomes a fixed response; null and the
 * placeholder "dojoFacesNullAction" change nothing. `trigger` invokes the binding if there is
 * one, and otherwise returns the fixed response.
 */
module Exec {
  import opened Values
  import opened Faces

  /** The fields of an ExecMap: the method binding's expression, if any, and the fixed response. */
  datatype ExecState = ExecState(binding: Option<string>, fixedResponse: Option<string>)

  /** The key the tag passes when no action is given. */
  const NullAction := "dojoFacesNullAction"

  predicate IsMethodExpression(m: string) {
    StartsWith(m, "#{") && EndsWith(m, "}")
  }

  /** get(key): `(String) key`, then the field the key selects. */
  function ExecGet(s: ExecState, key: Value): (r: Result<ExecState>)
    ensures r.Ok? <==> key == Null || key.Str?
    ensures key == Null || key == Str(NullAction) ==> r == Ok(s)
    ensures key.Str? && key.s != NullAction && IsMethodExpression(key.s) ==> r == Ok(s.(binding := Some(key.s)))
    ensures key.Str? && key.s != NullAction && !IsMethodExpression(key.s) ==> r == Ok(s.(fixedResponse := Some(key.s)))
  {
    var action :- CastString(key);
    if action.None? || action.value == NullAction then Ok(s)
    else if IsMethodExpression(action.value) then Ok(s.(binding := Some(action.value)))
    else Ok(s.(fixedResponse := Some(action.value)))
  }

  /** Successive calls to get, up to the first failing cast. */
  function ExecFeed(s: ExecState, keys: seq<Value>): Result<ExecState>
    decreases |keys|
  {
    if |keys| == 0 then Ok(s)
    else
      var s1 :- ExecGet(s, keys[0]);
      ExecFeed(s1, keys[1..])
  }

  /** trigger(): the String the binding's method returns, or the fixed response. */
  function TriggerOutcome(env: Env, s: ExecState): (r: Result<Option<string>>)
    ensures s.binding.None? ==> r == Ok(s.fixedResponse)
  {
    if s.binding.Some? then
      var v :- env.invokeBinding(s.binding.value);
      CastString(v)
    else Ok(s.fixedResponse)
  }

  /** Once a binding exists no later call removes it, so trigger goes on invoking a binding. */
  lemma {:induction false} BindingIsKept(s: ExecState, keys: seq<Value>)
    requires s.binding.Some? && ExecFeed(s, keys).Ok?
    ensures ExecFeed(s, keys).value.binding.Some?
    decreases |keys|
  {
    if |keys| > 0 {
      BindingIsKept(ExecGet(s, keys[0]).value, keys[1..]);
    }
  }

  /** Fixed responses given after a binding never reach trigger. */
  lemma FixedResponseIsShadowed(env: Env, s: ExecState, keys: seq<Value>)
    requires s.binding.Some? && ExecFeed(s, keys).Ok?
    ensures var t := ExecFeed(s, keys).value;
      forall fr :: TriggerOutcome(env, t.(fixedResponse := fr)) == TriggerOutcome(env, t)
  {
    BindingIsKept(s, keys);
  }

  /** Without any method expression among the keys, trigger answers the last String given. */
  lemma {:induction false} LastResponseWins(env: Env, s: ExecState, keys: seq<Value>, last: nat)
    requires s.binding.None? && last < |keys|
    requires keys[last].Str? && keys[last].s != NullAction && !IsMethodExpression(keys[last].s)
    requires forall i :: last < i < |keys| ==> keys[i] == Null || keys[i] == Str(NullAction)
    requires forall i :: 0 <= i < last ==> keys[i] == Null || (keys[i].Str? && !IsMethodExpression(keys[i].s))
    ensures ExecFeed(s, keys).Ok? && TriggerOutcome(env, ExecFeed(s, keys).value) == Ok(Some(keys[last].s))
    decreases |keys|
  {
    var s1 := ExecGet(s, keys[0]).value;
    if last == 0 {
      Unchanged(s1, keys[1..]);
    } else {
      forall i | last - 1 < i < |keys[1..]|
        ensures keys[1..][i] == Null || keys[1..][i] == Str(NullAction)
      {
        assert keys[1..][i] == keys[i + 1];
      }
      forall i | 0 <= i < last - 1
        ensures keys[1..][i] == Null || (keys[1..][i].Str? && !IsMethodExpression(keys[1..][i].s))
      {
        assert keys[1..][i] == keys[i + 1];
      }
      LastResponseWins(env, s1, keys[1..], last - 1);
    }
  }

  /** Keys that are null or not method expressions never change the binding. */
  lemma {:induction false} BindingStays(s: ExecState, keys: seq<Value>)
    requires forall i :: 0 <= i < |keys| ==> keys[i] == Null || (keys[i].Str? && !IsMethodExpression(keys[i].s))
    ensures ExecFeed(s, keys).Ok? && ExecFeed(s, keys).value.binding == s.binding
    decreases |keys|
  {
    if |keys| > 0 {
      assert keys[0] == Null || (keys[0].Str? && !IsMethodExpression(keys[0].s));
      forall i | 0 <= i < |keys[1..]|
        ensures keys[1..][i] == Null || (keys[1..][i].Str? && !IsMethodExpression(keys[1..][i].s))
      {
        assert keys[1..][i] == keys[i + 1];
      }
      BindingStays(ExecGet(s, keys[0]).value, keys[1..]);
    }
  }

  /**
   * The documented use: after a `get` of the method expression "#{ex}", and no later method
   * expression, trigger invokes ex and returns its String.
   */
  lemma {:induction false} LastMethodIsTriggered(env: Env, s: ExecState, keys: seq<Value>, last: nat)
    requires last < |keys| && keys[last].Str? && keys[last].s != NullAction && IsMethodExpression(keys[last].s)
    requires forall i :: 0 <= i < last ==> keys[i] == Null || keys[i].Str?
    requires forall i :: last < i < |keys| ==> keys[i] == Null || (keys[i].Str? && !IsMethodExpression(keys[i].s))
    ensures ExecFeed(s, keys).Ok? && ExecFeed(s, keys).value.binding == Some(keys[last].s)
    ensures TriggerOutcome(env, ExecFeed(s, keys).value) == (var v :- env.invokeBinding(keys[last].s); CastString(v))
    decreases |keys|
  {
    var s1 := ExecGet(s, keys[0]).value;
    forall i | last - 1 < i < |keys[1..]|
      ensures keys[1..][i] == Null || (keys[1..][i].Str? && !IsMethodExpression(keys[1..][i].s))
    {
      assert keys[1..][i] == keys[i + 1];
    }
    if last == 0 {
      BindingStays(s1, keys[1..]);
    } else {
      forall i | 0 <= i < last - 1
        ensures keys[1..][i] == Null || keys[1..][i].Str?
      {
        assert keys[1..][i] == keys[i + 1];
      }
      LastMethodIsTriggered(env, s1, keys[1..], last - 1);
    }
  }

  /** Null keys and the placeholder leave the state as it is. */
  lemma {:induction false} Unchanged(s: ExecState, keys: seq<Value>)
    requires forall i :: 0 <= i < |keys| ==> keys[i] == Null || keys[i] == Str(NullAction)
    ensures ExecFeed(s, keys) == Ok(s)
    decreases |keys|
  {
    if |keys| > 0 {
      assert keys[0] == Null || keys[0] == Str(NullAction);
      forall i | 0 <= i < |keys[1..]|
        ensures keys[1..][i] == Null || keys[1..][i] == Str(NullAction)
      {
        assert keys[1..][i] == keys[i + 1];
      }
      Unchanged(s, keys[1..]);
    }
  }

  class ExecMap {
    var methodBinding: Option<string>
    var fixedResponse: Option<string>

    constructor ()
      ensures State() == ExecState(None, None)
    {
      methodBinding, fixedResponse := None, None;
    }

    function State(): ExecState
      reads this
    {
      ExecState(methodBinding, fixedResponse)
    }

    /** ExecMap.trigger. */
    method Trigger(env: Env) returns (r: Result<Option<string>>)
      ensures r == TriggerOutcome(env, State())
    {
      if methodBinding.Some? {
        var v := env.invokeBinding(methodBinding.value);
        if v.Err? {
          return Err(v.error);
        }
        return CastString(v.value);
      }
      r := Ok(fixedResponse);
    }

    /** ExecMap.get: returns this unless the cast fails; a failed cast changes nothing. */
    method Get(key: Value) returns (r: Result<()>)
      modifies this
      ensures r.Ok? ==> ExecGet(old(State()), key) == Ok(State())
      ensures r.Err? ==> ExecGet(old(State()), key) == Err(r.error) && State() == old(State())
    {
      var action := CastString(key);
      if action.Err? {
        return Err(action.error);
      }
      if action.value.Some? && action.value.value != NullAction {
        var m := action.value.value;
        if StartsWith(m, "#{") && EndsWith(m, "}") {
          methodBinding := Some(m);
        } else {
          fixedResponse := Some(m);
        }
      }
      r := Ok(());
    }
  }
}
