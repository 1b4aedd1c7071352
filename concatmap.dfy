/**
 * ConcatMap: an EL map bean that concatenates two values. The first `get` stores the text of
 * its key and returns the bean itself; every later `get` returns that stored text followed by
 * the text of its own key.
 */
module Concat {
  import opened Values
  import opened Faces

  /** The state of a ConcatMap: the first part, once a first call has stored it (isSetFirst). */
  datatype ConcatState = ConcatState(first: Option<string>)

  /** get(key), and the state after it. */
  function ConcatGet(s: ConcatState, key: Value): (r: (Reply<string>, ConcatState))
    ensures s.first.None? ==> r.0 == Itself && r.1.first.Some?
    ensures s.first.None? && key == Null ==> r.1.first == Some("")
    ensures s.first.Some? ==> r.1 == s && r.0.Returned? && StartsWith(r.0.value, s.first.value)
  {
    if s.first.None? then (Itself, ConcatState(Some(if key == Null then "" else JavaText(key))))
    else (Returned(s.first.value + JavaText(key)), s)
  }

  /** Successive calls to get: their replies, and the state after them. */
  function ConcatFeed(s: ConcatState, keys: seq<Value>): (r: (seq<Reply<string>>, ConcatState))
    ensures |r.0| == |keys|
    decreases |keys|
  {
    if |keys| == 0 then ([], s)
    else
      var g := ConcatGet(s, keys[0]);
      var rest := ConcatFeed(g.1, keys[1..]);
      ([g.0] + rest.0, rest.1)
  }

  /**
   * Once the first part is stored it never changes, and every later call answers the first
   * part followed by String.valueOf of its key ("null" for null).
   */
  lemma {:induction false} FirstNeverChanges(s: ConcatState, keys: seq<Value>)
    requires s.first.Some?
    ensures ConcatFeed(s, keys).1 == s
    ensures forall i :: 0 <= i < |keys| ==> ConcatFeed(s, keys).0[i] == Returned(s.first.value + JavaText(keys[i]))
    decreases |keys|
  {
    if |keys| > 0 {
      FirstNeverChanges(s, keys[1..]);
      var rest := ConcatFeed(s, keys[1..]);
      var r := ConcatFeed(s, keys);
      assert r.0 == [Returned(s.first.value + JavaText(keys[0]))] + rest.0;
      forall i | 0 < i < |keys|
        ensures r.0[i] == Returned(s.first.value + JavaText(keys[i]))
      {
        assert r.0[i] == rest.0[i - 1];
        assert keys[1..][i - 1] == keys[i];
      }
    }
  }

  /** A fresh ConcatMap returns itself on the first call and the concatenation on each later one. */
  lemma TwoCalls(a: string, b: string)
    ensures ConcatFeed(ConcatState(None), [Str(a), Str(b)]).0 == [Itself, Returned(a + b)]
  {
    var s1 := ConcatGet(ConcatState(None), Str(a)).1;
    assert s1 == ConcatState(Some(a));
    assert ConcatFeed(s1, [Str(b)]).0 == [Returned(a + b)];
    assert [Str(a), Str(b)][1..] == [Str(b)];
  }

  class ConcatMap {
    var first: string
    var isSetFirst: bool

    constructor ()
      ensures State() == ConcatState(None)
    {
      first := "";
      isSetFirst := false;
    }

    function State(): ConcatState
      reads this
    {
      if isSetFirst then ConcatState(Some(first)) else ConcatState(None)
    }

    /** ConcatMap.get. */
    method Get(key: Value) returns (r: Reply<string>)
      modifies this
      ensures (r, State()) == ConcatGet(old(State()), key)
    {
      if !isSetFirst {
        first := if key != Null then JavaText(key) else "";
        isSetFirst := true;
        return Itself;
      }
      r := Returned(first + JavaText(key));
    }
  }
}
