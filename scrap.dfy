/** The refactored, testable copy of the option handling: a call builds its own
    `_settings`, converts the legacy keys with `_convertCompat`, merges the
    result over the defaults, and offers `_setPlaceholder`. */
module Scrap {

  import opened Wrappers
  import opened Dom
  import opened Settings

  /** The state of one call of the refactored `$.fn.lazyload`. */
  class TestableLazyLoad {
    /** `_settings` */
    var settings: map<string, Value>

    /** `if (options) { $.extend(_settings, _convertCompat(options)); }`; the
        options object itself is rewritten by the conversion. */
    constructor (options: JsObject?)
      modifies options
      ensures options != null ==> options.props == Compat(old(options.props))
      ensures settings == Configured(if options == null then None else Some(old(options.props)))
    {
      var s := Defaults();
      if options != null {
        var converted := ConvertCompat(options);
        s := Extend(s, converted.props);
      }
      settings := s;
    }

    /** `_setPlaceholder(element)`: an `img` whose `src` is falsy (missing or
        empty) gets `_settings.placeholder`; any other element is untouched. */
    method SetPlaceholder(e: Element)
      modifies e
      ensures e.src == WithPlaceholderIfFalsy(old(e.src), e.tag, Get(settings, "placeholder"))
      ensures e.loaded == old(e.loaded)
    {
      if (e.src.None? || e.src == Some("")) && e.tag == "img" {
        e.src := SetAttr(e.src, Get(settings, "placeholder"));
      }
    }
  }
}
