/** The host objects the plugin touches: JavaScript values as they appear in
    an options object, plain objects whose properties are reassigned and
    deleted, and the DOM elements the plugin is applied to. */
module Dom {

  import opened Wrappers

  /** A JavaScript value as far as the plugin's settings hold them. `Node`
      stands for any element reference (a DOM element, a jQuery object or a
      selector that matches one), by identity: its geometry is not part of the
      value, because the host measures it again on every pass; `Callback`
      stands for a function, by identity. */
  datatype Value =
    | Undefined
    | Null
    | Bool(b: bool)
    | Num(n: int)
    | Str(s: string)
    | WindowRef
    | Node(id: nat)
    | Callback(id: nat)

  /** JavaScript truthiness. */
  predicate Truthy(v: Value) {
    match v
    case Undefined => false
    case Null => false
    case Bool(b) => b
    case Num(n) => n != 0
    case Str(s) => s != ""
    case _ => true
  }

  /** `undefined !== o[k]`: a missing key reads as `undefined`. */
  predicate Defined(props: map<string, Value>, k: string) {
    k in props && props[k] != Undefined
  }

  /** `o[k]` */
  function Get(props: map<string, Value>, k: string): Value {
    if k in props then props[k] else Undefined
  }

  /** A plain JavaScript object, such as the options the caller passes in. */
  class JsObject {
    var props: map<string, Value>

    constructor (props: map<string, Value>)
      ensures this.props == props
    {
      this.props := props;
    }
  }

  /** A DOM element the plugin is applied to: its lower-case tag name, its `src`
      attribute (`None` when the attribute is missing, which is what `attr`
      reports as `undefined`) and the plugin's `loaded` flag. */
  class Element {
    const tag: string
    var src: Option<string>
    var loaded: bool

    constructor (tag: string, src: Option<string>)
      ensures this.tag == tag && this.src == src && !loaded
    {
      this.tag := tag;
      this.src := src;
      loaded := false;
    }
  }

  /** What `attr("src", v)` leaves in the attribute: a string is stored, `null`
      removes the attribute, and any other value is not modelled (the attribute
      is left as it was). */
  function SetAttr(current: Option<string>, v: Value): Option<string> {
    match v
    case Str(s) => Some(s)
    case Null => None
    case _ => current
  }
}
