/**
 * The JSF world around the store engine: the faces context with the model objects that EL
 * expressions reach, the component tree, and the services (EL method expressions,
 * converters, validators, reflection) that the engine calls but that are not part of this
 * model. Those services are total functions of their inputs, gathered in `Env`.
 */
module Faces {
  import opened Values

  /** A model object: its class name and its properties, keyed by column expression. */
  datatype Bean = Bean(cls: string, props: map<string, Value>)

  /** A class a reflective setter declares as its parameter type. */
  datatype JType =
    | TObject
    | TString
    | TBoolean(primitive: bool)
    | TNumber
    | TLong(primitive: bool)
    | TInteger(primitive: bool)
    | TShort(primitive: bool)
    | TByte(primitive: bool)
    | TDouble(primitive: bool)
    | TFloat(primitive: bool)
    | TOtherNumber(name: string)   // another subclass of Number, such as BigDecimal
    | TOther(name: string)         // any other class

  /** What bean introspection finds for a property name of a converter or validator. */
  datatype Property = NoProperty | ReadOnlyProperty | Writable(paramType: JType)

  /**
   * External services, as functions. Converter and validator instances are numbered;
   * how their property setters change later conversions is not modelled.
   */
  datatype Env = Env(
    // new JSONObject(String) of the base org.json library, as the ordered fields it yields
    parseStructure: string -> Result<seq<Field>>,
    // ValueExpression.isReadOnly of a column expression
    readOnly: string -> bool,
    // ValueExpression.getType of a column expression, as a class name
    typeOf: string -> string,
    // c.isAssignableFrom(v.getClass()) for a class c the model does not name (CharSequence, a bean's superclass, ...)
    assignableFrom: (string, Value) -> bool,
    // Class.forName(c) succeeds
    forName: string -> bool,
    // c.getConstructor().newInstance() of a loaded class: the new object's properties, or the exception
    newInstance: string -> Result<map<string, Value>>,
    // a method expression "#{...}" invoked on arguments
    invoke: (string, seq<Value>) -> Result<Value>,
    // Application.createConverter(id); None stands for a FacesException
    createConverter: string -> Option<nat>,
    // Application.createConverter(Class); None when no converter is registered
    converterForType: string -> Option<nat>,
    // setTimeZone and setLocale of a converter, reached by reflection
    setTimeZone: (nat, string) -> Option<Exception>,
    setLocale: (nat, string, Option<string>) -> Option<Exception>,
    // Application.createValidator(id); None stands for a FacesException
    createValidator: string -> Option<nat>,
    // bean introspection of a converter or validator instance, and invoking a setter
    property: (nat, string) -> Property,
    setProperty: (nat, string, Value) -> Option<Exception>,
    // NumberFormat.parse, and the floating-point narrowings of coerceTo; the model has no
    // floating-point values, so a Double or Float result is whatever Value the services return for it
    parseNumber: string -> Result<Value>,
    toFloating: (JType, int) -> Value,
    // Converter.getAsObject and Converter.getAsString, given the component's attributes
    toObject: (nat, map<string, Value>, string) -> Result<Value>,
    toText: (nat, map<string, Value>, Value) -> Result<Option<string>>,
    // Validator.validate, given the component's attributes
    validate: (nat, map<string, Value>, Value) -> Option<Exception>,
    // Pattern.matches(regex, input)
    matches: (string, string) -> Result<bool>,
    // BaseConverter.convert of a concrete converter
    convert: (map<string, Value>, Option<string>) -> Result<Value>,
    // Application.createMethodBinding(expr) invoked with no arguments
    invokeBinding: string -> Result<Value>
  )

  /** The expression that binds the item variable: "#{" + var + "}", with "null" for no name. */
  function ItemPath(itemVar: Option<string>): string {
    "#{" + (match itemVar case Some(v) => v case None => "null") + "}"
  }

  /**
   * The value of a column expression while `cur` is bound to the item variable: the item
   * itself for the item expression, otherwise the property of the current model object
   * (null when the object lacks it or nothing usable is bound).
   */
  function Read(heap: seq<Bean>, cur: Value, itemPath: string, path: string): (r: Value)
    ensures path == itemPath ==> r == cur
    ensures path != itemPath && !(cur.Ref? && cur.id < |heap|) ==> r == Null
  {
    if path == itemPath then cur
    else match cur
      case Ref(id) =>
        if id < |heap| && path in heap[id].props then heap[id].props[path] else Null
      case _ => Null
  }

  /** ValueExpression.setValue on the current item: only a model object can take a property. */
  function Write(heap: seq<Bean>, cur: Value, path: string, v: Value): (r: Result<seq<Bean>>)
    ensures r.Ok? <==> cur.Ref? && cur.id < |heap|
    ensures r.Ok? ==>
      && |r.value| == |heap|
      && r.value[cur.id] == Bean(heap[cur.id].cls, heap[cur.id].props[path := v])
      && forall i :: 0 <= i < |heap| && i != cur.id ==> r.value[i] == heap[i]
    ensures r.Err? ==> r.error.kind == PropertyNotFoundException
  {
    match cur
    case Ref(id) =>
      if id < |heap| then Ok(heap[id := Bean(heap[id].cls, heap[id].props[path := v])])
      else Fail(PropertyNotFoundException, "Target Unreachable")
    case _ => Fail(PropertyNotFoundException, "Target Unreachable")
  }

  /** The Java class of a value, as getClass().getName() reports it. */
  function ClassOf(heap: seq<Bean>, v: Value): Result<string> {
    match v
    case Null => Fail(NullPointerException, "getClass on null")
    case JNull => Ok("org.j4fry.json.JSONObject$Null")
    case Str(_) => Ok("java.lang.String")
    case Bool(_) => Ok("java.lang.Boolean")
    case Num(k, _) =>
      Ok(match k
         case LongKind => "java.lang.Long"
         case IntegerKind => "java.lang.Integer"
         case ShortKind => "java.lang.Short"
         case ByteKind => "java.lang.Byte")
    case Date(_) => Ok("java.util.Date")
    case Arr(_) => Ok("org.j4fry.json.JSONArray")
    case Obj(_) => Ok("org.j4fry.json.JSONObject")
    case Lst(_) => Ok("java.util.ArrayList")
    case Ref(id) => if id < |heap| then Ok(heap[id].cls) else Ok("java.lang.Object")
  }

  /**
   * The faces context of one request: the model objects EL expressions reach, the value
   * bound to the store's item variable, values written to top-level expressions, and the
   * messages added so far. `stack` is how deep the JVM lets the engine recurse into child
   * collections before a StackOverflowError.
   */
  class FacesContext {
    var heap: seq<Bean>
    var current: Value
    var globals: map<string, Value>
    var messages: seq<Option<string>>
    const stack: nat

    constructor (heap: seq<Bean>, stack: nat)
      ensures this.heap == heap && this.stack == stack
      ensures current == Null && globals == map[] && messages == []
    {
      this.heap := heap;
      this.stack := stack;
      current := Null;
      globals := map[];
      messages := [];
    }

    /** FacesContext.addMessage with a message built from a throwable's message. */
    method AddMessage(m: Option<string>)
      modifies this
      ensures messages == old(messages) + [m]
      ensures heap == old(heap) && current == old(current) && globals == old(globals)
    {
      messages := messages + [m];
    }
  }

  /** A component of the view: its parent, whether it is a UIForm, its client id and attributes. */
  class UIComponent {
    const parent: UIComponent?
    const isForm: bool
    const clientId: string
    ghost const depth: nat
    var attributes: map<string, Value>

    constructor (parent: UIComponent?, isForm: bool, clientId: string, attributes: map<string, Value>)
      requires parent != null ==> Rooted(parent)
      ensures Rooted(this)
      ensures this.parent == parent && this.isForm == isForm && this.clientId == clientId
      ensures this.attributes == attributes
    {
      this.parent := parent;
      this.isForm := isForm;
      this.clientId := clientId;
      this.attributes := attributes;
      depth := if parent == null then 0 else parent.depth + 1;
    }
  }

  /** The chain of parents ends: each ancestor lies strictly closer to the root. */
  ghost predicate Rooted(c: UIComponent)
    decreases c.depth
  {
    c.parent != null ==> c.parent.depth < c.depth && Rooted(c.parent)
  }

  /** An attribute as `(String) attributes.get(name)`: null when absent, an error when not a String. */
  function StringAttr(attrs: map<string, Value>, name: string): (r: Result<Option<string>>)
    ensures r.Ok? && r.value.Some? <==> name in attrs && attrs[name].Str?
    ensures r.Ok? && r.value.None? <==> name !in attrs || attrs[name] == Null
  {
    if name !in attrs || attrs[name] == Null then Ok(None)
    else if attrs[name].Str? then Ok(Some(attrs[name].s))
    else Fail(ClassCastException, "attribute " + name + " is not a String")
  }

  /** `(String) o`: null stays null, anything but a String is a ClassCastException. */
  function CastString(o: Value): (r: Result<Option<string>>)
    ensures r.Ok? <==> o == Null || o.Str?
    ensures o.Str? ==> r == Ok(Some(o.s))
    ensures o == Null ==> r == Ok(None)
  {
    match o
    case Null => Ok(None)
    case Str(s) => Ok(Some(s))
    case _ => Fail(ClassCastException, "cannot be cast to java.lang.String")
  }

  /**
   * What a parameter-collecting map bean answers to `get`: itself, so that EL can pass the
   * next parameter with another `[...]`, or the value it computes.
   */
  datatype Reply<T> = Itself | Returned(value: T)

  /** `bindings.get(id)` of a component-bindings map: null unless `id` is a bound String. */
  function Bound(bindings: map<string, UIComponent>, id: Value): (c: UIComponent?)
    ensures c != null <==> id.Str? && id.s in bindings
    ensures c != null ==> c == bindings[id.s]
  {
    if id.Str? && id.s in bindings then bindings[id.s] else null
  }

  /** The attribute map after `put(name, v)`, or `remove(name)` when `v` is absent. */
  function PutOrRemove(attrs: map<string, Value>, name: string, v: Option<string>): map<string, Value> {
    match v
    case Some(s) => attrs[name := Str(s)]
    case None => attrs - {name}
  }
}
