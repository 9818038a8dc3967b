/** One call of `$.fn.lazyload(options)` on a selection of elements: the
    settings it builds, the candidate list it keeps, the preparation of each
    element, the `update()` pass over the candidates, and the pruning of the
    list once an element has loaded. */
module Plugin {

  import opened Wrappers
  import opened Dom
  import opened Settings
  import Geometry
  import opened UpdatePass

  /** `a` is an in-order subsequence of `b`. */
  ghost predicate IsSubsequence<T>(a: seq<T>, b: seq<T>)
    decreases |b|
  {
    || a == []
    || (b != [] && ((a[0] == b[0] && IsSubsequence(a[1..], b[1..])) || IsSubsequence(a, b[1..])))
  }

  lemma {:induction false} SubsequenceReflexive<T>(a: seq<T>)
    ensures IsSubsequence(a, a)
    decreases |a|
  {
    if a != [] {
      SubsequenceReflexive(a[1..]);
    }
  }

  lemma {:induction false} SubsequenceTransitive<T>(a: seq<T>, b: seq<T>, c: seq<T>)
    requires IsSubsequence(a, b) && IsSubsequence(b, c)
    ensures IsSubsequence(a, c)
    decreases |c|
  {
    if a == [] {
    } else if IsSubsequence(b, c[1..]) {
      SubsequenceTransitive(a, b, c[1..]);
    } else {
      assert b[0] == c[0] && IsSubsequence(b[1..], c[1..]);
      if a[0] == b[0] && IsSubsequence(a[1..], b[1..]) {
        SubsequenceTransitive(a[1..], b[1..], c[1..]);
      } else {
        SubsequenceTransitive(a, b[1..], c[1..]);
      }
    }
  }

  /** `$.grep(elements, function(element) { return !element.loaded; })`: the
      elements not yet loaded, in their original order. */
  function Pending(s: seq<Element>): (r: seq<Element>)
    reads s
    ensures |r| <= |s|
    ensures forall e :: e in r ==> e in s && !e.loaded
    ensures forall e :: e in s && !e.loaded ==> e in r
    ensures forall e :: e in s ==> multiset(r)[e] == if e.loaded then 0 else multiset(s)[e]
  {
    if s == [] then []
    else
      var head := if s[0].loaded then [] else [s[0]];
      assert multiset(s) == multiset([s[0]]) + multiset(s[1..]) by {
        assert s == [s[0]] + s[1..];
      }
      head + Pending(s[1..])
  }

  /** The pruned list keeps the order of the list it was taken from. */
  lemma {:induction false} PendingIsSubsequence(s: seq<Element>)
    ensures IsSubsequence(Pending(s), s)
  {
    if s != [] {
      PendingIsSubsequence(s[1..]);
      if !s[0].loaded {
        assert Pending(s)[0] == s[0] && Pending(s)[1..] == Pending(s[1..]);
        assert IsSubsequence(Pending(s)[1..], s[1..]);
      } else {
        assert Pending(s) == Pending(s[1..]);
      }
    }
  }

  /** Reading the pass settings out of the settings object, with `current` the
      box the host reports for the container element on this pass (used only
      when the `container` setting is an element). `None` stands for values the
      model does not cover: a `threshold` that is neither a number, `null` nor
      `undefined`, a `failure_limit` that is neither a number nor `null` (an
      `undefined` one cannot come out of the merge over the defaults), or a
      truthy `container` that is neither the window nor an element. */
  function PassSettingsOf(settings: map<string, Value>, current: Geometry.Box): Option<PassSettings> {
    var threshold := match Get(settings, "threshold")
      case Undefined => Some(Geometry.Absent)
      case Null => Some(Geometry.Px(0))
      case Num(n) => Some(Geometry.Px(n))
      case _ => None;
    var limit := match Get(settings, "failure_limit")
      case Null => Some(0)
      case Num(n) => Some(n)
      case _ => None;
    var c := Get(settings, "container");
    var container :=
      if c == Undefined then Some(Geometry.UndefinedContainer)
      else if c == WindowRef then Some(Geometry.WindowObject)
      else if c.Node? then Some(Geometry.ElementContainer(current))
      else if !Truthy(c) then Some(Geometry.OtherFalsy)
      else None;
    if threshold.None? || limit.None? || container.None? then None
    else Some(PassSettings(threshold.value, limit.value, container.value,
                           Truthy(Get(settings, "skip_invisible"))))
  }

  /** The default settings give a pass against the window at threshold 0 that
      stops at the first miss and checks invisible elements too. */
  lemma DefaultPassSettings(current: Geometry.Box)
    ensures PassSettingsOf(Defaults(), current) == Some(PassSettings(Geometry.Px(0), 0, Geometry.WindowObject, false))
  {
  }

  /** The per-element set-up of `$.fn.lazyload` (`this.each`): every element
      is marked not loaded, and each `img` without a `src` attribute gets the
      placeholder. */
  method Prepare(selection: seq<Element>, placeholder: Value)
    modifies selection
    ensures forall e :: e in selection ==> !e.loaded
    ensures forall e :: e in selection ==> e.src == WithPlaceholder(old(e.src), e.tag, placeholder)
  {
    for i := 0 to |selection|
      invariant forall e :: e in selection[..i] ==> !e.loaded
      invariant forall e :: e in selection[..i] ==> e.src == WithPlaceholder(old(e.src), e.tag, placeholder)
      invariant forall e :: e in selection && e !in selection[..i] ==> e.src == old(e.src)
    {
      var e := selection[i];
      e.loaded := false;
      PlaceholderIdempotent(old(e.src), e.tag, placeholder);
      if e.src.None? && e.tag == "img" {
        e.src := SetAttr(e.src, placeholder);
      }
      assert selection[..i + 1] == selection[..i] + [e];
    }
    assert selection[..|selection|] == selection;
  }

  /** The state of one `$.fn.lazyload` call. */
  class LazyLoad {
    /** The merged settings. */
    var settings: map<string, Value>
    /** The candidates the next `update()` pass walks. */
    var elements: seq<Element>
    /** The elements the plugin was applied to. */
    ghost const selection: seq<Element>

    ghost predicate Valid()
      reads this
    {
      IsSubsequence(elements, selection)
    }

    /** `$.fn.lazyload(options)`: convert the legacy keys of a truthy `options`
        object in place and merge it over the defaults, then mark every element
        not loaded and give each `img` without a `src` the placeholder. */
    constructor (selection: seq<Element>, options: JsObject?)
      modifies selection, options
      ensures Valid()
      ensures this.selection == selection && elements == selection
      ensures options != null ==> options.props == Compat(old(options.props))
      ensures settings == Configured(if options == null then None else Some(old(options.props)))
      ensures forall e :: e in selection ==> !e.loaded
      ensures forall e :: e in selection ==>
        e.src == WithPlaceholder(old(e.src), e.tag, settings["placeholder"])
    {
      var s := Defaults();
      if options != null {
        var converted := ConvertCompat(options);
        s := Extend(s, converted.props);
      }
      ConfiguredKeepsDefaultKeys(if options == null then None else Some(old(options.props)));
      assert "placeholder" in s;
      settings := s;
      elements := selection;
      this.selection := selection;
      new;
      SubsequenceReflexive(selection);
      Prepare(selection, settings["placeholder"]);
    }

    /** `update()` over the current candidates, given what the host reports on
        this pass: `view[i]` for `elements[i]`, the window, and the box of the
        container element (read only when the `container` setting is one). The
        indices it returns are positions in `elements`. */
    method Update(view: seq<Candidate>, win: Geometry.Viewport, container: Geometry.Box)
      returns (appeared: seq<nat>, stop: nat, threw: bool)
      requires |view| == |elements|
      requires PassSettingsOf(settings, container).Some?
      ensures IsPassResult(view, PassSettingsOf(settings, container).value, win, appeared, stop, threw)
      ensures Get(settings, "container").Node? ==>
        PassSettingsOf(settings, container).value.container == Geometry.ElementContainer(container)
      ensures forall k :: 0 <= k < |appeared| ==> appeared[k] < |elements|
    {
      appeared, stop, threw := UpdatePass.Update(view, PassSettingsOf(settings, container).value, win);
    }

    /** The image `load` callback: mark the element loaded and drop every
        loaded element from the candidates. */
    method OnLoad(e: Element)
      requires Valid()
      modifies this`elements, e`loaded
      ensures Valid()
      ensures e.loaded
      ensures elements == Pending(old(elements))
      ensures e !in elements
      ensures |elements| <= |old(elements)|
      ensures forall x :: x in elements ==> x in old(elements) && !x.loaded
      ensures forall x :: x in old(elements) && !x.loaded ==> x in elements
      ensures forall x :: x in old(elements) ==>
        multiset(elements)[x] == if x.loaded then 0 else multiset(old(elements))[x]
    {
      e.loaded := true;
      var before := elements;
      var pruned := Pending(before);
      PendingIsSubsequence(before);
      SubsequenceTransitive(pruned, before, selection);
      elements := pruned;
      assert pruned == Pending(before);
    }
  }
}
