/**
 * BaseConverter: the input checks every j4fry converter performs before converting a
 * submitted string (Required, RegExp, MinLength, MaxLength, each with its own message
 * attribute), and the message templating of the ConverterException it throws, where
 * `${name}` is replaced by the component's attribute `name`.
 */
module BaseChecks {
  import opened Values
  import opened Faces

  // ---------------------------------------------------------------------------
  // validate

  /**
   * Integer.parseInt of a String attribute, `default` when it is absent; an attribute that is
   * not a String is a ClassCastException.
   */
  function IntAttr(attrs: map<string, Value>, name: string, default: int): (r: Result<int>)
    ensures name !in attrs || attrs[name] == Null ==> r == Ok(default)
    ensures name in attrs && attrs[name].Str? ==> r == ParseInteger(attrs[name].s, 10, W32)
    ensures r.Err? && StringAttr(attrs, name).Err? ==> r.error.kind == ClassCastException
    ensures r.Ok? ==> StringAttr(attrs, name).Ok?
  {
    var s :- StringAttr(attrs, name);
    if s.None? then Ok(default) else ParseInteger(s.value, 10, W32)
  }

  /** A message attribute, or the built-in message when it is absent. */
  function MessageAttr(attrs: map<string, Value>, name: string, default: string): (r: Result<string>)
    ensures r.Ok? && StringAttr(attrs, name) == Ok(None) ==> r.value == default
    ensures r.Ok? && name in attrs && attrs[name].Str? ==> r.value == attrs[name].s
  {
    var s :- StringAttr(attrs, name);
    Ok(if s.Some? then s.value else default)
  }

  const IntMax: int := 0x7fff_ffff

  /** The Required attribute is "true", whatever the case; one that is not a String is a ClassCastException. */
  function Required(attrs: map<string, Value>): (r: Result<bool>)
    ensures r == Ok(true) <==> "Required" in attrs && attrs["Required"].Str? && EqualsIgnoreCase("true", attrs["Required"].s)
    ensures r.Err? <==> "Required" in attrs && attrs["Required"] != Null && !attrs["Required"].Str?
    ensures r.Err? ==> r.error.kind == ClassCastException
  {
    var req :- StringAttr(attrs, "Required");
    Ok(req.Some? && EqualsIgnoreCase("true", req.value))
  }

  /**
   * The decision of validate: the error message it throws with, None when the value passes,
   * or the exception a malformed attribute or the regular expression raises first.
   */
  function Check(env: Env, attrs: map<string, Value>, value: Option<string>): (r: Result<Option<string>>)
    ensures r.Ok? ==> Required(attrs).Ok?
  {
    var required :- Required(attrs);
    var empty := value.None? || |value.value| == 0;
    if empty && !required then Ok(None)
    else
      var requiredMessage: Option<string> :-
        if empty then
          var m :- MessageAttr(attrs, "RequiredMessage", "input required");
          Ok(Some(m))
        else Ok(None);
      var regExp :- StringAttr(attrs, "RegExp");
      var minLength :- IntAttr(attrs, "MinLength", 0);
      var maxLength :- IntAttr(attrs, "MaxLength", IntMax);
      if regExp.Some? then
        if value.None? then Fail(NullPointerException, "Pattern.matches on null")
        else
          var ok :- env.matches(regExp.value, value.value);
          if ok then Ok(requiredMessage)
          else
            var m :- MessageAttr(attrs, "RegExpMessage", "follow regular expression ${RegExp}");
            Ok(Some(m))
      else if (value.Some? && |value.value| < minLength) || (value.None? && minLength > 0) then
        var m :- MessageAttr(attrs, "MinLengthMessage", "input at least ${MinLength} characters");
        Ok(Some(m))
      else if value.Some? && |value.value| > maxLength then
        var m :- MessageAttr(attrs, "MaxLengthMessage", "input at most ${MaxLength} characters");
        Ok(Some(m))
      else Ok(requiredMessage)
  }

  /** An empty or missing value passes unless the component is required. */
  lemma OptionalEmptyPasses(env: Env, attrs: map<string, Value>, value: Option<string>)
    requires value.None? || value.value == ""
    ensures Check(env, attrs, value).Ok? && Check(env, attrs, value).value.Some? ==> Required(attrs) == Ok(true)
    ensures Required(attrs) == Ok(false) ==> Check(env, attrs, value) == Ok(None)
  {
  }

  /** No RegExp, MinLength or MaxLength attribute constrains the value. */
  predicate OnlyRequired(attrs: map<string, Value>) {
    && ("RegExp" !in attrs || attrs["RegExp"] == Null)
    && ("MinLength" !in attrs || attrs["MinLength"] == Null)
    && ("MaxLength" !in attrs || attrs["MaxLength"] == Null)
  }

  /**
   * A required empty value with no other checks fails with the RequiredMessage attribute,
   * or with "input required" when there is none.
   */
  lemma RequiredEmptyFails(env: Env, attrs: map<string, Value>, value: Option<string>)
    requires Required(attrs) == Ok(true) && OnlyRequired(attrs)
    requires value.None? || value.value == ""
    ensures var m := MessageAttr(attrs, "RequiredMessage", "input required");
      && (m.Ok? ==> Check(env, attrs, value) == Ok(Some(m.value)))
      && (m.Err? ==> Check(env, attrs, value) == Err(m.error))
    ensures "RequiredMessage" !in attrs ==> Check(env, attrs, value) == Ok(Some("input required"))
  {
  }

  /** The RequiredMessage attribute replaces "input required". */
  lemma RequiredMessageReported(env: Env, attrs: map<string, Value>, value: Option<string>, message: string)
    requires Required(attrs) == Ok(true) && OnlyRequired(attrs)
    requires value.None? || value.value == ""
    requires "RequiredMessage" in attrs && attrs["RequiredMessage"] == Str(message)
    ensures Check(env, attrs, value) == Ok(Some(message))
  {
    RequiredEmptyFails(env, attrs, value);
  }

  /** An upper-case TRUE makes a component required as well. */
  lemma RequiredInAnyCase(env: Env, attrs: map<string, Value>)
    requires attrs.Keys == {"Required"} && attrs["Required"] == Str("TRUE")
    ensures Check(env, attrs, None) == Ok(Some("input required"))
  {
    assert EqualsIgnoreCase("true", "TRUE");
    RequiredEmptyFails(env, attrs, None);
  }

  /** With a RegExp the length limits are parsed but not checked: only the match decides. */
  lemma RegExpSkipsLengths(env: Env, attrs: map<string, Value>, s: string)
    requires |s| > 0 && Required(attrs).Ok?
    requires StringAttr(attrs, "RegExp").Ok? && StringAttr(attrs, "RegExp").value.Some?
    requires IntAttr(attrs, "MinLength", 0).Ok? && IntAttr(attrs, "MaxLength", IntMax).Ok?
    requires env.matches(StringAttr(attrs, "RegExp").value.value, s).Ok?
    ensures var ok := env.matches(StringAttr(attrs, "RegExp").value.value, s).value;
      var m := MessageAttr(attrs, "RegExpMessage", "follow regular expression ${RegExp}");
      && (ok ==> Check(env, attrs, Some(s)) == Ok(None))
      && (!ok && m.Ok? ==> Check(env, attrs, Some(s)) == Ok(Some(m.value)))
  {
  }

  /**
   * Without a RegExp, a value shorter than MinLength fails with the min message even when it
   * is also longer than MaxLength, and a required empty value reports the min message rather
   * than the required one.
   */
  lemma MinLengthFirst(env: Env, attrs: map<string, Value>, value: Option<string>, min: int)
    requires Required(attrs).Ok? && StringAttr(attrs, "RegExp") == Ok(None)
    requires value.Some? ==> |value.value| > 0
    requires StringAttr(attrs, "RequiredMessage").Ok?
    requires IntAttr(attrs, "MinLength", 0) == Ok(min) && IntAttr(attrs, "MaxLength", IntMax).Ok?
    requires (value.Some? && |value.value| < min) || (value.None? && min > 0 && Required(attrs) == Ok(true))
    ensures var m := MessageAttr(attrs, "MinLengthMessage", "input at least ${MinLength} characters");
      Check(env, attrs, value) == if m.Ok? then Ok(Some(m.value)) else Err(m.error)
    ensures "MinLengthMessage" !in attrs ==> Check(env, attrs, value) == Ok(Some("input at least ${MinLength} characters"))
  {
  }

  /** A value longer than MaxLength, and not shorter than MinLength, fails with the max message. */
  lemma MaxLengthSecond(env: Env, attrs: map<string, Value>, s: string, max: int)
    requires Required(attrs).Ok? && StringAttr(attrs, "RegExp") == Ok(None)
    requires |s| > 0 && IntAttr(attrs, "MinLength", 0).Ok? && |s| >= IntAttr(attrs, "MinLength", 0).value
    requires IntAttr(attrs, "MaxLength", IntMax) == Ok(max) && |s| > max
    ensures var m := MessageAttr(attrs, "MaxLengthMessage", "input at most ${MaxLength} characters");
      Check(env, attrs, Some(s)) == if m.Ok? then Ok(Some(m.value)) else Err(m.error)
    ensures "MaxLengthMessage" in attrs && attrs["MaxLengthMessage"].Str? ==>
      Check(env, attrs, Some(s)) == Ok(Some(attrs["MaxLengthMessage"].s))
  {
  }

  /**
   * Without a RegExp, a non-empty value whose length lies within MinLength and MaxLength
   * passes: validate sets no message and throws nothing.
   */
  lemma WithinLimitsPasses(env: Env, attrs: map<string, Value>, s: string, min: int, max: int)
    requires Required(attrs).Ok? && StringAttr(attrs, "RegExp") == Ok(None)
    requires |s| > 0
    requires IntAttr(attrs, "MinLength", 0) == Ok(min) && IntAttr(attrs, "MaxLength", IntMax) == Ok(max)
    requires min <= |s| <= max
    ensures Check(env, attrs, Some(s)) == Ok(None)
  {
  }

  /** With no RegExp, MinLength or MaxLength attribute, every non-empty value passes. */
  lemma UnconstrainedValuePasses(env: Env, attrs: map<string, Value>, s: string)
    requires Required(attrs).Ok? && OnlyRequired(attrs)
    requires 0 < |s| <= IntMax
    ensures Check(env, attrs, Some(s)) == Ok(None)
  {
    WithinLimitsPasses(env, attrs, s, 0, IntMax);
  }

  // ---------------------------------------------------------------------------
  // throwException: the message template

  /** The text for `${param}`: the attribute's toString, or "attribute<param>NotProvided". */
  function ParamText(attrs: map<string, Value>, param: string): string {
    if param !in attrs || attrs[param] == Null then NotProvided(param)
    else JavaText(attrs[param])
  }

  /** The text for a parameter the component does not define. */
  function NotProvided(param: string): string {
    "attribute" + param + "NotProvided"
  }

  /** String.substring(begin, -1) on a string of the given length. */
  function Unclosed(begin: int, length: int): (r: Result<string>)
    ensures r.Err? && r.error.kind == IndexOutOfBounds
  {
    Fail(IndexOutOfBounds, "begin " + IntText(begin) + ", end -1, length " + IntText(length))
  }

  /** The text of every parameter name, from the component's attributes. */
  function Texts(attrs: map<string, Value>): string -> string {
    p => ParamText(attrs, p)
  }

  /** A `${` starts at index i. */
  predicate PlaceholderAt(s: string, i: int) {
    0 <= i && i + 1 < |s| && s[i] == '$' && s[i + 1] == '{'
  }

  /** message.indexOf("${", from); -1 when absent. */
  function FindPlaceholder(s: string, from: nat): (r: int)
    ensures r == -1 || (from <= r && PlaceholderAt(s, r))
    decreases |s| - from
  {
    if from + 1 >= |s| then -1
    else if s[from] == '$' && s[from + 1] == '{' then from
    else FindPlaceholder(s, from + 1)
  }

  /** indexOf finds the first placeholder from `from` on. */
  lemma {:induction false} FindPlaceholderAt(s: string, from: nat, k: nat)
    requires from <= k && PlaceholderAt(s, k)
    requires forall j :: from <= j < k ==> !PlaceholderAt(s, j)
    ensures FindPlaceholder(s, from) == k
    decreases k - from
  {
    if from < k {
      assert !PlaceholderAt(s, from);
      FindPlaceholderAt(s, from + 1, k);
    }
  }

  /** indexOf is -1 when no placeholder starts at or after `from`. */
  lemma {:induction false} FindPlaceholderNone(s: string, from: nat)
    requires forall j :: from <= j ==> !PlaceholderAt(s, j)
    ensures FindPlaceholder(s, from) == -1
    decreases |s| - from
  {
    if from + 1 < |s| {
      assert !PlaceholderAt(s, from);
      FindPlaceholderNone(s, from + 1);
    }
  }

  /** message.indexOf('}', from); -1 when absent. */
  function FindBrace(s: string, from: nat): (r: int)
    ensures r == -1 || (from <= r < |s| && s[r] == '}')
    decreases |s| - from
  {
    if from >= |s| then -1
    else if s[from] == '}' then from
    else FindBrace(s, from + 1)
  }

  /** indexOf finds the first `}` from `from` on. */
  lemma {:induction false} FindBraceAt(s: string, from: nat, k: nat)
    requires from <= k < |s| && s[k] == '}'
    requires forall j :: from <= j < k ==> s[j] != '}'
    ensures FindBrace(s, from) == k
    decreases k - from
  {
    if from < k {
      FindBraceAt(s, from + 1, k);
    }
  }

  /** indexOf is -1 when no `}` comes at or after `from`. */
  lemma {:induction false} FindBraceNone(s: string, from: nat)
    requires forall j :: from <= j < |s| ==> s[j] != '}'
    ensures FindBrace(s, from) == -1
    decreases |s| - from
  {
    if from < |s| {
      FindBraceNone(s, from + 1);
    }
  }

  /** Prefixing a partial result with the text already produced. */
  function Prefixed(out: string, r: Result<string>): Result<string> {
    if r.Ok? then Ok(out + r.value) else r
  }

  /**
   * The message from index `from` on, with its placeholders replaced from left to right.
   * A `${` without a closing `}` makes `substring` fail with the begin index of the
   * parameter name, an end of -1 and the length of the message.
   */
  function Expand(m: string, texts: string -> string, from: nat): (r: Result<string>)
    requires from <= |m|
    ensures r.Err? ==> r.error.kind == IndexOutOfBounds
    ensures FindPlaceholder(m, from) == -1 ==> r == Ok(m[from..])
    decreases |m| - from
  {
    var p := FindPlaceholder(m, from);
    if p < 0 then Ok(m[from..])
    else
      var close := FindBrace(m, p + 2);
      if close < 0 then Unclosed(p + 2, |m|)
      else
        Prefixed(m[from..p] + texts(m[p + 2..close]), Expand(m, texts, close + 1))
  }

  /** The text of a null message. */
  const NoMessage := "no message provided"

  /** A non-null message with its placeholders replaced; only a first `${` after the start switches templating on. */
  function Templated(m: string, texts: string -> string): (r: Result<string>)
    ensures FindPlaceholder(m, 0) <= 0 ==> r == Ok(m)
    ensures r.Err? ==> r.error.kind == IndexOutOfBounds
  {
    if FindPlaceholder(m, 0) > 0 then Expand(m, texts, 0) else Ok(m)
  }

  /** The summary of the thrown message; a null message becomes NoMessage, which holds no placeholder (NoMessageIsLiteral). */
  function Template(message: Option<string>, attrs: map<string, Value>): (r: Result<string>)
    ensures message.None? ==> r == Ok(NoMessage)
    ensures message.Some? && FindPlaceholder(message.value, 0) <= 0 ==> r == Ok(message.value)
  {
    if message.None? then Ok(NoMessage) else Templated(message.value, Texts(attrs))
  }

  /** One placeholder of the message: the text before it, its parameter's text, and the rest. */
  lemma ExpandUnfold(m: string, texts: string -> string, from: nat)
    requires from <= |m| && FindPlaceholder(m, from) >= 0
    ensures var p := FindPlaceholder(m, from);
      var c := FindBrace(m, p + 2);
      && (c < 0 ==> Expand(m, texts, from) == Unclosed(p + 2, |m|))
      && (c >= 0 ==> Expand(m, texts, from) == Prefixed(m[from..p] + texts(m[p + 2..c]), Expand(m, texts, c + 1)))
  {
  }

  lemma NoMessageIsLiteral()
    ensures FindPlaceholder(NoMessage, 0) == -1
  {
  }

  /** What throwException throws: a ConverterException with a summary and a detail, or the templating's own exception. */
  datatype Failure = ConverterFailure(summary: string, detail: string) | OtherFailure(error: Exception)

  /** The exception a templating outcome ends in; `detail` is the J4Fry_ACTION_DETAIL_MESSAGE init parameter. */
  function Summarised(r: Result<string>, detail: Option<string>): (f: Failure)
    ensures f.ConverterFailure? <==> r.Ok?
    ensures f.ConverterFailure? ==> f.summary == r.value && f.detail == (if detail.Some? then detail.value else r.value)
    ensures f.OtherFailure? ==> f.error == r.error
  {
    match r
    case Ok(s) => ConverterFailure(s, if detail.Some? then detail.value else s)
    case Err(e) => OtherFailure(e)
  }

  /** throwException(context, component, message). */
  function Thrown(attrs: map<string, Value>, message: Option<string>, detail: Option<string>): (f: Failure)
    ensures f.ConverterFailure? <==> Template(message, attrs).Ok?
    ensures f.ConverterFailure? ==>
      f.summary == Template(message, attrs).value && f.detail == (if detail.Some? then detail.value else f.summary)
  {
    Summarised(Template(message, attrs), detail)
  }

  /** getMessage() of what was thrown; a ConverterException built from a FacesMessage reports its summary. */
  function MessageOf(f: Failure): Option<string> {
    match f
    case ConverterFailure(summary, _) => Some(summary)
    case OtherFailure(e) => e.message
  }

  /** The first `${` of a message that starts with text free of `$`. */
  lemma FirstPlaceholder(pre: string, tail: string)
    requires '$' !in pre && |tail| >= 2 && tail[0] == '$' && tail[1] == '{'
    ensures FindPlaceholder(pre + tail, 0) == |pre|
  {
    var m := pre + tail;
    assert PlaceholderAt(m, |pre|);
    forall j | 0 <= j < |pre| ensures !PlaceholderAt(m, j) {
      assert m[j] == pre[j];
    }
    FindPlaceholderAt(m, 0, |pre|);
  }

  /** The first `}` after a parameter name free of `}`. */
  lemma ClosingBrace(pre: string, p: string, tail: string)
    requires '}' !in p && |tail| > 0 && tail[0] == '}'
    ensures FindBrace(pre + p + tail, |pre|) == |pre| + |p|
  {
    var m := pre + p + tail;
    assert m[|pre| + |p|] == '}';
    forall j | |pre| <= j < |pre| + |p| ensures m[j] != '}' {
      assert m[j] == p[j - |pre|];
    }
    FindBraceAt(m, |pre|, |pre| + |p|);
  }

  /** Where the parts of `pre${p}rest` lie: the first `${` right after `pre`, closed right after `p`. */
  lemma PlaceholderParts(pre: string, p: string, rest: string)
    requires '$' !in pre && '}' !in p
    ensures var m := pre + "${" + p + "}" + rest;
      && FindPlaceholder(m, 0) == |pre|
      && FindBrace(m, |pre| + 2) == |pre| + 2 + |p|
      && m[0..|pre|] == pre && m[|pre| + 2..|pre| + 2 + |p|] == p
  {
    var m := pre + "${" + p + "}" + rest;
    Layout(pre, p, rest, m);
    forall j | 0 <= j < |pre| ensures !PlaceholderAt(m, j) {
      assert m[j] == pre[j];
    }
    FindPlaceholderAt(m, 0, |pre|);
    forall j | |pre| + 2 <= j < |pre| + 2 + |p| ensures m[j] != '}' {
      assert m[j] == p[j - |pre| - 2];
    }
    FindBraceAt(m, |pre| + 2, |pre| + 2 + |p|);
  }

  /** The characters of `pre${p}rest`, index by index. */
  lemma Layout(pre: string, p: string, rest: string, m: string)
    requires m == pre + "${" + p + "}" + rest
    ensures |m| == |pre| + 3 + |p| + |rest|
    ensures m[0..|pre|] == pre && m[|pre| + 2..|pre| + 2 + |p|] == p
    ensures PlaceholderAt(m, |pre|) && m[|pre| + 2 + |p|] == '}'
    ensures forall j :: 0 <= j < |pre| ==> m[j] == pre[j]
    ensures forall j :: 0 <= j < |p| ==> m[|pre| + 2 + j] == p[j]
  {
  }

  /**
   * The first `${` of a message at index i > 0, closed by the `}` at c: the text before it is
   * kept, `${name}` becomes the attribute's text, and templating goes on after the `}`.
   */
  lemma FirstPlaceholderReplaced(m: string, i: nat, c: nat, attrs: map<string, Value>)
    requires 0 < i && FindPlaceholder(m, 0) == i && FindBrace(m, i + 2) == c
    ensures Template(Some(m), attrs) == Prefixed(m[0..i] + ParamText(attrs, m[i + 2..c]), Expand(m, Texts(attrs), c + 1))
  {
  }

  /** The same, for a placeholder that ends the message. */
  lemma LastPlaceholderReplaced(m: string, i: nat, c: nat, attrs: map<string, Value>)
    requires 0 < i && FindPlaceholder(m, 0) == i && FindBrace(m, i + 2) == c && c + 1 == |m|
    ensures Template(Some(m), attrs) == Ok(m[0..i] + ParamText(attrs, m[i + 2..c]))
  {
    var texts := Texts(attrs);
    ClosedPlaceholder(m, texts, 0, i, c);
    FindPlaceholderNone(m, c + 1);
    assert Expand(m, texts, c + 1) == Ok([]);
    var a := m[0..i] + texts(m[i + 2..c]);
    assert a == m[0..i] + ParamText(attrs, m[i + 2..c]);
    assert a + [] == a;
    assert Template(Some(m), attrs) == Expand(m, texts, 0);
  }

  /** `pre${p}`, with `pre` non-empty and free of `$` and `p` free of `}`, becomes `pre` and the text of attribute p. */
  lemma PlaceholderReplaced(pre: string, p: string, attrs: map<string, Value>)
    requires |pre| > 0 && '$' !in pre && '}' !in p
    ensures Template(Some(pre + "${" + p + "}"), attrs) == Ok(pre + ParamText(attrs, p))
  {
    PlaceholderParts(pre, p, "");
    assert pre + "${" + p + "}" + "" == pre + "${" + p + "}";
    LastPlaceholderReplaced(pre + "${" + p + "}", |pre|, |pre| + 2 + |p|, attrs);
  }

  /** A `${` at the very start switches templating off, so the placeholders stay as they are. */
  lemma LeadingPlaceholderIsLiteral(rest: string, attrs: map<string, Value>)
    ensures Template(Some("${" + rest), attrs) == Ok("${" + rest)
  {
    assert PlaceholderAt("${" + rest, 0);
  }

  /** A `${` that is never closed makes throwException fail with an index exception instead. */
  lemma UnclosedPlaceholderFails(pre: string, tail: string, attrs: map<string, Value>)
    requires |pre| > 0 && '$' !in pre && '}' !in tail
    ensures var m := pre + "${" + tail;
      Template(Some(m), attrs) == Unclosed(|pre| + 2, |m|)
  {
    var m := pre + "${" + tail;
    assert PlaceholderAt(m, |pre|);
    forall j | 0 <= j < |pre| ensures !PlaceholderAt(m, j) {
      assert m[j] == pre[j];
    }
    FindPlaceholderAt(m, 0, |pre|);
    forall j | |pre| + 2 <= j < |m| ensures m[j] != '}' {
      assert m[j] == tail[j - |pre| - 2];
    }
    FindBraceNone(m, |pre| + 2);
  }

  // ---------------------------------------------------------------------------
  // throwException as a loop over the message

  /** One turn of throwException's loop: a closed placeholder moves the text before it and its parameter's text into the output. */
  lemma ExpandStep(m: string, texts: string -> string, out: string, from: nat, p: nat, c: nat)
    requires from <= p && FindPlaceholder(m, from) == p && FindBrace(m, p + 2) == c
    ensures Prefixed(out, Expand(m, texts, from)) == Prefixed(out + m[from..p] + texts(m[p + 2..c]), Expand(m, texts, c + 1))
  {
    var x, y, rest := m[from..p], texts(m[p + 2..c]), Expand(m, texts, c + 1);
    ClosedPlaceholder(m, texts, from, p, c);
    if rest.Ok? {
      assert out + ((x + y) + rest.value) == (out + (x + y)) + rest.value;
    }
    Associative(out, x, y);
  }

  /** Expand at a placeholder `${` at p closed by the `}` at c. */
  lemma ClosedPlaceholder(m: string, texts: string -> string, from: nat, p: nat, c: nat)
    requires from <= p && FindPlaceholder(m, from) == p && FindBrace(m, p + 2) == c
    ensures Expand(m, texts, from) == Prefixed(m[from..p] + texts(m[p + 2..c]), Expand(m, texts, c + 1))
  {
  }

  lemma Associative(a: string, b: string, c: string)
    ensures a + (b + c) == a + b + c
  {
  }

  lemma PrefixedEmpty(r: Result<string>)
    ensures Prefixed("", r) == r
  {
    if r.Ok? {
      assert "" + r.value == r.value;
    }
  }

  /** throwException(context, component, message): a null message is replaced by NoMessage; it always ends in an exception. */
  method ThrowException(comp: UIComponent, message: Option<string>, detail: Option<string>) returns (f: Failure)
    ensures f == Thrown(comp.attributes, message, detail)
  {
    var m := if message.Some? then message.value else NoMessage;
    NoMessageIsLiteral();
    f := Substitute(Texts(comp.attributes), m, detail);
  }

  /**
   * The loop of throwException over a non-null message, and the exception it ends in;
   * `texts` gives the text of a parameter from the component's attributes.
   */
  method Substitute(texts: string -> string, m: string, detail: Option<string>) returns (f: Failure)
    ensures f == Summarised(Templated(m, texts), detail)
  {
    var pos := FindPlaceholder(m, 0);
    var r: Result<string>;
    if pos > 0 {
      r := ExpandLoop(texts, m);
      ExpandIntoIsPrefixed(m, texts, "", 0);
      PrefixedEmpty(Expand(m, texts, 0));
    } else {
      r := Ok(m);
    }
    if r.Err? {
      return OtherFailure(r.error);
    }
    f := ConverterFailure(r.value, if detail.Some? then detail.value else r.value);
  }

  /**
   * throwException's loop from index `from` on, with `out` the text built so far: the text
   * before each closed placeholder and its parameter's text are appended in turn.
   */
  function ExpandInto(m: string, texts: string -> string, out: string, from: nat): Result<string>
    requires from <= |m|
    decreases |m| - from
  {
    var p := FindPlaceholder(m, from);
    if p < 0 then Ok(out + m[from..])
    else
      var close := FindBrace(m, p + 2);
      if close < 0 then Unclosed(p + 2, |m|)
      else ExpandInto(m, texts, out + m[from..p] + texts(m[p + 2..close]), close + 1)
  }

  /** One turn of the loop: a closed placeholder at `p` moves the text before it and its parameter's text into `out`. */
  lemma ExpandIntoStep(m: string, texts: string -> string, out: string, from: nat, p: int, close: int)
    requires from <= |m| && p == FindPlaceholder(m, from) >= 0 && close == FindBrace(m, p + 2) >= 0
    ensures from <= p && p + 2 <= close < |m|
    ensures ExpandInto(m, texts, out, from) == ExpandInto(m, texts, out + m[from..p] + texts(m[p + 2..close]), close + 1)
  {
  }

  /** The loop computes the recursive definition, with `out` in front. */
  lemma {:induction false} ExpandIntoIsPrefixed(m: string, texts: string -> string, out: string, from: nat)
    requires from <= |m|
    ensures ExpandInto(m, texts, out, from) == Prefixed(out, Expand(m, texts, from))
    decreases |m| - from
  {
    var p := FindPlaceholder(m, from);
    if p >= 0 {
      var close := FindBrace(m, p + 2);
      if close >= 0 {
        ExpandStep(m, texts, out, from, p, close);
        ExpandIntoIsPrefixed(m, texts, out + m[from..p] + texts(m[p + 2..close]), close + 1);
      } else {
        ExpandUnfold(m, texts, from);
      }
    }
  }

  /** The while loop of throwException: the text before each closed placeholder, then its parameter's text. */
  method ExpandLoop(texts: string -> string, m: string) returns (r: Result<string>)
    ensures r == ExpandInto(m, texts, "", 0)
  {
    var out := "";
    var oldPos := 0;
    var pos := FindPlaceholder(m, 0);
    ghost var goal := ExpandInto(m, texts, out, 0);
    while pos >= 0
      invariant 0 <= oldPos <= |m|
      invariant pos == FindPlaceholder(m, oldPos)
      invariant ExpandInto(m, texts, out, oldPos) == goal
      decreases |m| - oldPos
    {
      var close := FindBrace(m, pos + 2);
      if close < 0 {
        return Unclosed(pos + 2, |m|);
      }
      ExpandIntoStep(m, texts, out, oldPos, pos, close);
      var param := m[pos + 2..close];
      out := out + m[oldPos..pos] + texts(param);
      oldPos := close + 1;
      pos := FindPlaceholder(m, oldPos);
    }
    r := Ok(out + m[oldPos..]);
  }

  // ---------------------------------------------------------------------------
  // validate and getAsObject

  /** validate(component, value): the failure it throws, if any. */
  function ValidateOutcome(env: Env, attrs: map<string, Value>, value: Option<string>, detail: Option<string>): (f: Option<Failure>)
    ensures f.None? <==> Check(env, attrs, value) == Ok(None)
  {
    match Check(env, attrs, value)
    case Err(e) => Some(OtherFailure(e))
    case Ok(None) => None
    case Ok(Some(m)) => Some(Thrown(attrs, Some(m), detail))
  }

  method Validate(env: Env, comp: UIComponent, value: Option<string>, detail: Option<string>) returns (f: Option<Failure>)
    ensures f == ValidateOutcome(env, comp.attributes, value, detail)
  {
    var c := Check(env, comp.attributes, value);
    if c.Err? {
      return Some(OtherFailure(c.error));
    }
    if c.value.None? {
      return None;
    }
    var t := ThrowException(comp, c.value, detail);
    f := Some(t);
  }

  /** What getAsObject gives: the converted object or the exception it throws. */
  datatype Conversion = Converted(v: Value) | Failed(failure: Failure)

  /**
   * getAsObject: validate, then convert. Whatever either throws is caught and thrown again
   * through throwException with its message, so a validation message is templated twice.
   */
  function GetAsObjectOutcome(env: Env, attrs: map<string, Value>, value: Option<string>, detail: Option<string>): (o: Conversion)
    ensures o.Converted? <==> Check(env, attrs, value) == Ok(None) && env.convert(attrs, value).Ok?
    ensures o.Converted? ==> o.v == env.convert(attrs, value).value
  {
    match ValidateOutcome(env, attrs, value, detail)
    case Some(f) => Failed(Thrown(attrs, MessageOf(f), detail))
    case None =>
      match env.convert(attrs, value)
      case Ok(v) => Converted(v)
      case Err(e) => Failed(Thrown(attrs, e.message, detail))
  }

  /** getAsObject never lets a validation or conversion failure through as anything but throwException's outcome. */
  lemma FailureIsRethrown(env: Env, attrs: map<string, Value>, value: Option<string>, detail: Option<string>)
    requires GetAsObjectOutcome(env, attrs, value, detail).Failed?
    ensures exists message :: GetAsObjectOutcome(env, attrs, value, detail).failure == Thrown(attrs, message, detail)
  {
    var o := GetAsObjectOutcome(env, attrs, value, detail);
    match ValidateOutcome(env, attrs, value, detail)
    case Some(f) => assert o.failure == Thrown(attrs, MessageOf(f), detail);
    case None => assert o.failure == Thrown(attrs, env.convert(attrs, value).error.message, detail);
  }

  /**
   * The second pass of templating sees the text the first pass substituted: when the
   * validation message is `pre${p}` and attribute p holds `pre2${q}`, the ConverterException
   * reports `pre pre2` followed by the text for a missing q.
   */
  lemma ValidationMessageTemplatedTwice(env: Env, attrs: map<string, Value>, value: Option<string>, pre: string, p: string, pre2: string, q: string)
    requires Check(env, attrs, value) == Ok(Some(pre + "${" + p + "}"))
    requires |pre| > 0 && '$' !in pre && '}' !in p && p in attrs && attrs[p] == Str(pre2 + "${" + q + "}")
    requires '$' !in pre2 && '}' !in q && q !in attrs
    ensures var x := pre + pre2 + NotProvided(q);
      GetAsObjectOutcome(env, attrs, value, None) == Failed(ConverterFailure(x, x))
  {
    var first := pre + ParamText(attrs, p);
    PlaceholderReplaced(pre, p, attrs);
    ValidationFailureRethrown(env, attrs, value, pre + "${" + p + "}", first);
    SecondPass(pre, pre2, q, attrs, first);
  }

  /** Templating `pre` followed by `pre2${q}`, for a missing q. */
  lemma SecondPass(pre: string, pre2: string, q: string, attrs: map<string, Value>, first: string)
    requires |pre| > 0 && '$' !in pre && '$' !in pre2 && '}' !in q && q !in attrs
    requires first == pre + (pre2 + "${" + q + "}")
    ensures var x := pre + pre2 + NotProvided(q);
      Thrown(attrs, Some(first), None) == ConverterFailure(x, x)
  {
    Regrouped(pre, pre2, q, first);
    PlaceholderReplaced(pre + pre2, q, attrs);
  }

  /** A validation message that templates to `s` reaches throwException a second time as `s`. */
  lemma ValidationFailureRethrown(env: Env, attrs: map<string, Value>, value: Option<string>, m: string, s: string)
    requires Check(env, attrs, value) == Ok(Some(m)) && Template(Some(m), attrs) == Ok(s)
    ensures GetAsObjectOutcome(env, attrs, value, None) == Failed(Thrown(attrs, Some(s), None))
  {
    assert ValidateOutcome(env, attrs, value, None) == Some(ConverterFailure(s, s));
  }

  /** `pre` followed by `pre2${q}` is `pre pre2` followed by `${q}`. */
  lemma Regrouped(pre: string, pre2: string, q: string, s: string)
    requires s == pre + (pre2 + "${" + q + "}")
    ensures s == (pre + pre2) + "${" + q + "}"
  {
  }

  /** BaseConverter.getAsObject. */
  method GetAsObject(env: Env, comp: UIComponent, value: Option<string>, detail: Option<string>) returns (o: Conversion)
    ensures o == GetAsObjectOutcome(env, comp.attributes, value, detail)
  {
    var f := Validate(env, comp, value, detail);
    if f.Some? {
      var t := ThrowException(comp, MessageOf(f.value), detail);
      return Failed(t);
    }
    var c := env.convert(comp.attributes, value);
    if c.Err? {
      var t := ThrowException(comp, c.error.message, detail);
      return Failed(t);
    }
    o := Converted(c.value);
  }
}
