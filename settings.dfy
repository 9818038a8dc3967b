/** Option handling shared by `$.fn.lazyload` and its refactored copy: the
    default settings, the renaming of the legacy keys `failurelimit` and
    `effectspeed`, the key-by-key merge of `$.extend`, and the two
    placeholder rules. */
module Settings {

  import opened Wrappers
  import opened Dom

  /** The default `placeholder`: a 1x1 grey GIF as a data URI. */
  const DefaultPlaceholder := "data:image/gif;base64,R0lGODdhAQABAPAAAMPDwwAAACwAAAAAAQABAAACAkQBADs="

  /** The settings object every call starts from. */
  function Defaults(): map<string, Value> {
    map[
      "threshold" := Num(0),
      "failure_limit" := Num(0),
      "event" := Str("scroll.lazyload"),
      "effect" := Str("show"),
      "container" := WindowRef,
      "data_attribute" := Str("original"),
      "data_srcset" := Str("srcset"),
      "skip_invisible" := Bool(false),
      "appear" := Null,
      "load" := Null,
      "placeholder" := Str(DefaultPlaceholder)
    ]
  }

  /** Keys that the legacy conversion may rewrite in `m`: a defined legacy key
      and its new name. */
  predicate Renamed(m: map<string, Value>, k: string) {
    || ((k == "failurelimit" || k == "failure_limit") && Defined(m, "failurelimit"))
    || ((k == "effectspeed" || k == "effect_speed") && Defined(m, "effectspeed"))
  }

  /** The options after the backward-compatibility block: a defined
      `failurelimit` is moved to `failure_limit` (beating any `failure_limit`
      already there), a defined `effectspeed` to `effect_speed`. */
  function Compat(m: map<string, Value>): (r: map<string, Value>)
    ensures Defined(m, "failurelimit") ==>
      "failurelimit" !in r && "failure_limit" in r && r["failure_limit"] == m["failurelimit"]
    ensures Defined(m, "effectspeed") ==>
      "effectspeed" !in r && "effect_speed" in r && r["effect_speed"] == m["effectspeed"]
    ensures forall k :: k in m && !Renamed(m, k) ==> k in r && r[k] == m[k]
    ensures forall k :: k in r ==>
      || k in m
      || (k == "failure_limit" && Defined(m, "failurelimit"))
      || (k == "effect_speed" && Defined(m, "effectspeed"))
    ensures !Defined(m, "failurelimit") && !Defined(m, "effectspeed") ==> r == m
  {
    var m1 := if Defined(m, "failurelimit")
      then m["failure_limit" := m["failurelimit"]] - {"failurelimit"}
      else m;
    if Defined(m1, "effectspeed")
      then m1["effect_speed" := m1["effectspeed"]] - {"effectspeed"}
      else m1
  }

  /** `_convertCompat`: rewrites the caller's options object in place, by
      assignment and `delete`, and hands back the same object. */
  method ConvertCompat(options: JsObject) returns (r: JsObject)
    modifies options
    ensures r == options
    ensures options.props == Compat(old(options.props))
  {
    if Defined(options.props, "failurelimit") {
      options.props := options.props["failure_limit" := options.props["failurelimit"]];
      options.props := options.props - {"failurelimit"};
    }
    if Defined(options.props, "effectspeed") {
      options.props := options.props["effect_speed" := options.props["effectspeed"]];
      options.props := options.props - {"effectspeed"};
    }
    r := options;
  }

  /** `$.extend(target, src)`, one level deep: every key of `src` whose value
      is not `undefined` overwrites the target's; everything else in the
      target stays. */
  function Extend(target: map<string, Value>, src: map<string, Value>): (r: map<string, Value>)
    ensures forall k :: Defined(src, k) ==> k in r && r[k] == src[k]
    ensures forall k :: k in target && !Defined(src, k) ==> k in r && r[k] == target[k]
    ensures forall k :: k in r ==> k in target || Defined(src, k)
  {
    map k | k in target.Keys + src.Keys && (k in target || Defined(src, k)) ::
      if Defined(src, k) then src[k] else target[k]
  }

  /** The settings a call ends with: the defaults when the options are falsy
      (`None`), else the converted options merged over the defaults. */
  function Configured(options: Option<map<string, Value>>): map<string, Value> {
    match options
    case None => Defaults()
    case Some(props) => Extend(Defaults(), Compat(props))
  }

  /** The placeholder rule of `$.fn.lazyload`: only an `img` whose `src`
      attribute is missing gets the placeholder; an empty `src` is kept. */
  function WithPlaceholder(src: Option<string>, tag: string, placeholder: Value): (r: Option<string>)
    ensures tag != "img" ==> r == src
    ensures src.Some? ==> r == src
    ensures tag == "img" && src.None? && placeholder.Str? ==> r == Some(placeholder.s)
  {
    if src.None? && tag == "img" then SetAttr(src, placeholder) else src
  }

  /** The placeholder rule of `_setPlaceholder`: an `img` whose `src` is falsy,
      missing or empty, gets the placeholder. */
  function WithPlaceholderIfFalsy(src: Option<string>, tag: string, placeholder: Value): (r: Option<string>)
    ensures tag != "img" ==> r == src
    ensures src.Some? && src.value != "" ==> r == src
    ensures tag == "img" && (src.None? || src == Some("")) && placeholder.Str? ==> r == Some(placeholder.s)
  {
    if (src.None? || src == Some("")) && tag == "img" then SetAttr(src, placeholder) else src
  }

  // ---------------------------------------------------------------------------
  // Properties of the option handling.
  // ---------------------------------------------------------------------------

  /** Converting twice is converting once. */
  lemma CompatIdempotent(m: map<string, Value>)
    ensures Compat(Compat(m)) == Compat(m)
  {
  }

  /** With no options the settings are the defaults; with options, every key
      the converted options define carries the option's value, and every other
      default keeps its default. In particular a legacy `failurelimit` becomes
      the `failure_limit` setting and leaves no `failurelimit` behind. */
  lemma ConfiguredOverridesDefaults(options: Option<map<string, Value>>)
    ensures options == None ==> Configured(options) == Defaults()
    ensures options.Some? ==>
      var c := Compat(options.value);
      var s := Configured(options);
      && (forall k :: Defined(c, k) ==> s[k] == c[k])
      && (forall k :: k in Defaults() && !Defined(c, k) ==> s[k] == Defaults()[k])
      && (forall k :: k in s ==> k in Defaults() || Defined(c, k))
    ensures options.Some? && Defined(options.value, "failurelimit") ==>
      Configured(options)["failure_limit"] == options.value["failurelimit"] &&
      "failurelimit" !in Configured(options)
    ensures options.Some? && Defined(options.value, "effectspeed") ==>
      Configured(options)["effect_speed"] == options.value["effectspeed"] &&
      "effectspeed" !in Configured(options)
  {
  }

  /** Every default key stays defined whatever the options: `$.extend` never
      copies an `undefined`. */
  lemma ConfiguredKeepsDefaultKeys(options: Option<map<string, Value>>)
    ensures forall k :: k in Defaults() ==> Defined(Configured(options), k)
  {
  }

  /** Applying a placeholder rule a second time changes nothing. */
  lemma PlaceholderIdempotent(src: Option<string>, tag: string, placeholder: Value)
    ensures WithPlaceholder(WithPlaceholder(src, tag, placeholder), tag, placeholder)
         == WithPlaceholder(src, tag, placeholder)
    ensures WithPlaceholderIfFalsy(WithPlaceholderIfFalsy(src, tag, placeholder), tag, placeholder)
         == WithPlaceholderIfFalsy(src, tag, placeholder)
  {
  }

  /** The two placeholder rules agree except on an `img` whose `src` is the
      empty string, which only the refactored rule replaces. */
  lemma PlaceholderRulesCompared(src: Option<string>, tag: string, placeholder: Value)
    ensures src != Some("") ==>
      WithPlaceholder(src, tag, placeholder) == WithPlaceholderIfFalsy(src, tag, placeholder)
    ensures src == Some("") && tag == "img" && placeholder.Str? && placeholder.s != "" ==>
      WithPlaceholder(src, tag, placeholder) == Some("") &&
      WithPlaceholderIfFalsy(src, tag, placeholder) == Some(placeholder.s)
  {
  }
}
