/**
 * JsIdMap: the client id of a bound component made usable as a JavaScript identifier, every
 * `:` of the id being replaced by `_`.
 */
module JsIds {
  import opened Values
  import opened Faces

  /** String.replace(from, to) on characters. */
  function ReplaceChar(s: string, from: char, to: char): (r: string)
    ensures |r| == |s|
    ensures forall i :: 0 <= i < |s| ==> r[i] == (if s[i] == from then to else s[i])
    decreases |s|
  {
    if |s| == 0 then ""
    else [if s[0] == from then to else s[0]] + ReplaceChar(s[1..], from, to)
  }

  /** JsIdMap.get(id): null for an unbound id, else the client id with `:` replaced by `_`. */
  function JsId(bindings: map<string, UIComponent>, id: Value): (r: Option<string>)
    ensures r.None? <==> Bound(bindings, id) == null
    ensures r.Some? ==> |r.value| == |Bound(bindings, id).clientId|
  {
    var comp := Bound(bindings, id);
    if comp == null then None else Some(ReplaceChar(comp.clientId, ':', '_'))
  }

  /** The JavaScript id holds no `:`, and agrees with the client id everywhere else. */
  lemma JsIdHasNoColon(bindings: map<string, UIComponent>, id: Value)
    requires JsId(bindings, id).Some?
    ensures var r := JsId(bindings, id).value;
      var c := Bound(bindings, id).clientId;
      && ':' !in r
      && forall i :: 0 <= i < |c| ==> (c[i] == ':' ==> r[i] == '_') && (c[i] != ':' ==> r[i] == c[i])
  {
    var r := JsId(bindings, id).value;
    assert forall i :: 0 <= i < |r| ==> r[i] != ':';
  }

  /** Replacing the colons twice changes nothing more: a JavaScript id is its own JavaScript id. */
  lemma ReplaceIsIdempotent(s: string)
    ensures ReplaceChar(ReplaceChar(s, ':', '_'), ':', '_') == ReplaceChar(s, ':', '_')
  {
    var r := ReplaceChar(s, ':', '_');
    var rr := ReplaceChar(r, ':', '_');
    assert forall i :: 0 <= i < |r| ==> rr[i] == r[i];
  }
}
