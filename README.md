# Lazy Load visibility evaluator, in Dafny

This project models the core of the jQuery Lazy Load plugin (version
1.10.0-dev) and proves properties of it. The plugin holds back loading of
images and other media until they come close to the visible part of the window
or of a scrolling container. The model covers:

- **The geometry getters and the visibility predicates** (`geometry.dfy`).
  These are `getElementTop`, `getElementLeft`, `getElementBottom`,
  `getWindowHeight`, `getWindowWidth`, `getFoldBottom`, `getFoldRight` and
  `getContainer`. They feed `$.belowthefold`, `$.rightoffold`,
  `$.abovethetop`, `$.leftofbegin`, `$.inviewport` and the eight custom
  selectors. Geometry is in integer pixels. A predicate that throws in
  JavaScript returns `TypeError` in the model.
- **The `update()` pass** (`update_pass.dfy`). It is a method with a loop over
  the candidates. It reports the indices that fired "appear", the index where
  the pass stopped, and whether it stopped because a predicate threw.
  `IsPassResult` states the pass's specification through the per-candidate
  verdict `Classify` and the miss counter `CounterAt`.
- **One `$.fn.lazyload` call** (`plugin.dfy`). A `LazyLoad` object holds the
  merged settings and the candidate list. Its constructor converts the legacy
  option keys in place, merges the options over the defaults, and prepares
  each element: it clears `loaded` and applies the placeholder rule. `OnLoad`
  sets `loaded` and prunes the list to the elements not yet loaded.
- **The option handling** (`settings.dfy`, `scrap.dfy`). `settings.dfy` holds
  the defaults, the legacy-key conversion as a function (`Compat`) and as the
  in-place `_convertCompat` method, the merge that `$.extend` performs, and
  the two placeholder rules. `scrap.dfy` models the refactored copy: its
  constructor and `_setPlaceholder`.
- **Host values** (`dom.dfy`). This file holds JavaScript values, plain
  objects and DOM elements (tag, `src` attribute, `loaded` flag).

Behaviour of the code that the model keeps as written:

- **Ties count as outside.** The comparisons are `<=` and `>=`, so an element
  that exactly touches a fold is outside the visible area.
- **A larger threshold makes "below" harder.** `getElementTop` subtracts the
  threshold, so raising it makes "below the fold" and "right of the fold"
  harder to satisfy. `$.abovethetop` and `$.leftofbegin` add it, so raising it
  makes those harder too. All four predicates are antitone in the threshold
  (`ThresholdAntitone`).
- **The custom right fold uses the height.** For a custom container,
  `getFoldRight` adds the container's height to its left offset, not its width
  (jquery.lazyload.js:268).
- **Two families read the container differently.**
  - Below/right take `container || window`.
  - Above/left treat only `undefined` and the window object as the window.
  - So for another falsy container (`null`, `false`, `0`, `""`), below/right
    measure the window, while above/left throw.
- **Two families read the threshold differently.**
  - The getters use `threshold || 0`.
  - `$.abovethetop` and `$.leftofbegin` add `settings.threshold` unchanged.
  - So a missing threshold means 0 to below/right, but makes above/left
    compare against NaN, which is always false.
- **There is no element-right getter.** `$.leftofbegin` computes the right
  edge inline. `$.abovethetop` also computes the bottom inline and does not
  call `getElementBottom`.
- **The aliases negate below/right.** The selectors `:above-the-top` and
  `:above-the-fold` are the negation of below-the-fold. `:left-of-screen` and
  `:left-of-fold` are the negation of right-of-fold. None of them calls
  `$.abovethetop` or `$.leftofbegin`.
- **The two placeholder tests differ.**
  - jquery.lazyload.js replaces only a missing `src`.
  - scrap.js replaces any falsy `src`, including the empty string.

Host inputs are parameters:

- Element and window geometry (`Box`, `Viewport`).
- jQuery's `:visible` test (`Candidate.visible`).
- Which element a selector or a jQuery object stands for (`Value.Node`, an
  identity only).
- The container element's box, measured afresh on every pass (the `container`
  parameter of `LazyLoad.Update`), just as the source calls `offset()` and
  `height()` on it on every `update()`.

`innerHeight`/`innerWidth` equal to 0 stands for both "missing" and "zero":
both are falsy, and both make the code fall back to the host's size.

## Model

| member | source | states |
|---|---|---|
| `Geometry.BelowTheFoldIff` | jquery.lazyload.js:284-293 | `BelowTheFold` (with `ElementTop`, `OrZero`, `GetContainer`, `FoldBottom`, `WindowHeight`) is below the fold iff the fold bottom is `<=` the element top minus the threshold (0 when missing); the window's fold bottom is `innerHeight` (or the fallback height when that is falsy) plus `scrollTop`, a custom container's is its top plus its height |
| `Geometry.RightOfFoldIff` | jquery.lazyload.js:295-304 | `RightOfFold` (with `ElementLeft`, `FoldRight`, `WindowWidth`) is right of the fold iff the fold right is `<=` the element left minus the threshold (0 when missing); the window's fold right is `innerWidth` (or the fallback) plus `scrollLeft`, a custom container's is its left plus its HEIGHT |
| `Geometry.AboveTheTopIff` | jquery.lazyload.js:306-316 | `AboveTheTop` (with `TopFold`) throws exactly for a falsy container other than `undefined`; otherwise above iff a threshold is given and the fold (`scrollTop`, or the container's top) is `>=` element top + threshold + element height |
| `Geometry.LeftOfBeginIff` | jquery.lazyload.js:318-328 | `LeftOfBegin` (with `LeftFold`) throws exactly for a falsy container other than `undefined`; otherwise left iff a threshold is given and the fold (`scrollLeft`, or the container's left) is `>=` element left + threshold + element width |
| `Geometry.AboveTheTopUsesElementBottom` | jquery.lazyload.js:219-221 | `ElementBottom` against `AboveTheTop`: with a threshold given, above-the-top compares the top fold with `getElementBottom`; with none, it never holds although the getter would use 0 |
| `Geometry.InViewportIff` | jquery.lazyload.js:330-333 | `InViewport` is in the viewport iff not right, not left, not below and not above, whenever no predicate throws; with another falsy container, false when right of the fold and a throw otherwise (short-circuit order) |
| `Geometry.SelectorTable` | jquery.lazyload.js:339-349 | `Matches` on each `Selector` with `SelectorQuery`: `:below-the-fold` and `:right-of-screen` test the window at threshold 0; `:above-the-top` = `:above-the-fold` = not below; `:left-of-screen` = `:left-of-fold` = not right; `:right-of-fold` = `:right-of-screen`; `:in-viewport` never throws |
| `Geometry.AboveTheTopSelectorIsNotAboveTheTop` | jquery.lazyload.js:341 | an element inside a 1024x768 window matches `:above-the-top` while `$.abovethetop` is false for it |
| `Geometry.ThresholdAntitone` | jquery.lazyload.js:284-328 | for thresholds t1 <= t2, each of below, right, above and left that holds at t2 holds at t1 |
| `Geometry.AbsentThreshold` | jquery.lazyload.js:306-328 | a missing threshold acts as 0 for below/right and makes above/left false |
| `Geometry.TouchingTheFoldIsOutside` | jquery.lazyload.js:292 | an element whose adjusted top equals the fold bottom is below the fold and not in the viewport |
| `Geometry.OtherFalsyContainer` | jquery.lazyload.js:277-279 | a falsy container other than `undefined` is read as the window by below/right and makes above/left throw |
| `Geometry.CustomRightFoldUsesHeight` | jquery.lazyload.js:263-269 | in a custom container 1024 wide and 768 tall, an element at left 800 is already right of the fold |
| `Geometry.NeverAboveAndBelow` | jquery.lazyload.js:284-316 | with non-negative threshold and sizes, and some height in the element or the container, no element is both above the top and below the fold |
| `Geometry.TestSuiteScenarios` | __tests__/jquery.lazyload.test.js:98-831 | the test suite's below/above/right cases at thresholds 0, 5 and 20, including the innerHeight fallback and a touching element |
| `UpdatePass.Update` | jquery.lazyload.js:42-65 | judged per candidate by `Classify` and `CounterAt`, the pass stops at the first candidate that throws or whose miss takes the counter past `failure_limit`, or at the end; it fires "appear" for exactly the candidates before that point that are neither above/left nor below/right, in order |
| `UpdatePass.CounterIsMissRun` | jquery.lazyload.js:53-61 | the counter equals the number of below/right misses since the last "appear": skipped elements leave it unchanged and an "appear" resets it |
| `UpdatePass.LargeLimitRunsToTheEnd` | jquery.lazyload.js:59-61 | with `failure_limit` at least the number of candidates and nothing throwing, the pass visits every candidate |
| `UpdatePass.ZeroLimitStopsAtFirstMiss` | jquery.lazyload.js:59-61 | with `failure_limit` 0, no candidate before the stop is a miss and the pass stops at the first miss (or throw) |
| `UpdatePass.StopMeansTooManyMisses` | jquery.lazyload.js:56-61 | a pass that stops without throwing has counted more than `failure_limit` misses since the last "appear" |
| `UpdatePass.AppearsExactlyBeforeStop` | jquery.lazyload.js:53-57 | an index fired "appear" iff it lies before the stop point and its element is inside the visible area; nothing after the stop fires |
| `Plugin.Pending` | jquery.lazyload.js:135-138 | the pruned list is no longer than the old one and holds exactly the old list's elements whose `loaded` is false, each as many times as the old list holds it (a repeated element keeps every copy) |
| `Plugin.PendingIsSubsequence` | jquery.lazyload.js:135-138 | the pruned list is an in-order subsequence of the old one |
| `Plugin.DefaultPassSettings` | jquery.lazyload.js:28-40 | `PassSettingsOf` on `Settings.Defaults`: the defaults give threshold 0, failure limit 0, the window as container and no skipping of invisible elements, whatever a container element would measure |
| `Plugin.Prepare` | jquery.lazyload.js:92-103 | every element ends with `loaded` false, and exactly the `img` elements without a `src` attribute get the placeholder |
| `Plugin.LazyLoad.constructor` | jquery.lazyload.js:67-103 | a truthy options object is converted in place; the settings are the defaults (falsy options) or the converted options merged over them; the candidates are the whole selection, prepared as `Prepare` states |
| `Plugin.LazyLoad.Update` | jquery.lazyload.js:42-65 | a pass over the current candidates with the settings `PassSettingsOf` reads from the merged settings object, with the result `UpdatePass.Update` states; a container element is measured on this pass, not when the plugin was set up |
| `Plugin.LazyLoad.OnLoad` | jquery.lazyload.js:132-138 | the element becomes loaded and nothing else about it changes; the candidates become the in-order list of the old candidates not loaded, each kept as often as it occurred, so the list never grows, never holds the loaded element, and stays a subsequence of the selection |
| `Settings.Compat` | scrap.js:31-39 | a defined `failurelimit` becomes `failure_limit` (over any existing one) and is removed; likewise `effectspeed` to `effect_speed`; every other key is unchanged; a new-name key appears only when its legacy key was defined; options without legacy keys come back equal |
| `Settings.ConvertCompat` | scrap.js:26-42 | the options object is rewritten in place to `Compat` of its old properties and the same object is returned |
| `Settings.CompatIdempotent` | scrap.js:31-39 | converting twice gives the same properties as converting once |
| `Settings.Extend` | scrap.js:45-48 | after the merge, every key the options define has the option's value, every other key of the target keeps its value, and no other key appears |
| `Settings.ConfiguredOverridesDefaults` | jquery.lazyload.js:67-79 | `Configured`: falsy options leave the defaults; otherwise converted options override the defaults key by key; a legacy `failurelimit`/`effectspeed` ends up as `failure_limit`/`effect_speed` with no legacy key left |
| `Settings.ConfiguredKeepsDefaultKeys` | scrap.js:5-17 | every key of `Defaults` is still defined (not `undefined`) in `Configured`, whatever the options |
| `Settings.WithPlaceholder` | jquery.lazyload.js:98-103 | a non-`img` and an element that has a `src` attribute, even an empty one, keep it; an `img` with no `src` gets a string placeholder |
| `Settings.WithPlaceholderIfFalsy` | scrap.js:19-25 | a non-`img` and a non-empty `src` are kept; an `img` whose `src` is missing or empty gets a string placeholder |
| `Settings.PlaceholderRulesCompared` | scrap.js:22 | the two placeholder rules agree except on an `img` with an empty `src`, which only the refactored rule replaces |
| `Scrap.TestableLazyLoad.constructor` | scrap.js:45-48 | the settings are the defaults for falsy options, else the converted options merged over the defaults; the options object is converted in place |
| `Scrap.TestableLazyLoad.SetPlaceholder` | scrap.js:19-25 | the element's `src` becomes what the falsy-`src` placeholder rule gives with the current `placeholder` setting; nothing else changes |

## Left out

- Event plumbing is not modelled: binding and unbinding of scroll, resize and custom events, `.one("appear")`, `.trigger`, and the start-up `$(function(){})` call (jquery.lazyload.js:81-90, 155-169, 183-186). "Appear fired" is an output of `Update`, not an event.
- The image-loading actuator is not modelled, because it is asynchronous host I/O. This covers the temporary `<img>` with its load and error callbacks, the `src`/`srcset`/`poster`/`background-image` swaps, the `hide` and effect animation, and the `appear`/`load` user callbacks with their `elements_left` count (jquery.lazyload.js:106-153). Only the `loaded` flag and the pruning (`OnLoad`) are kept. The host calls `OnLoad` when an image has loaded.
- The iOS 5 `pageshow` workaround is not modelled, because it is a browser quirk keyed on the user-agent string (jquery.lazyload.js:171-181).
- Host queries are not modelled. `offset()`, `height()`, `width()`, `scrollTop()`, `scrollLeft()`, `innerHeight`, `innerWidth` and `:visible` are integer and boolean inputs. Fractional pixels, NaN geometry and floating-point arithmetic are outside the model.
- The `TESTING` export to `window._lazyload` and the second, identical definition in scrap.js are not modelled (scrap.js:50-53, 68-120).
- Plugin.LazyLoad.Update: requires that `PassSettingsOf` can read the settings. A `threshold` or `failure_limit` that is a string, boolean or object is outside the model. JavaScript would coerce it, and with `+` even concatenate strings. The same goes for a truthy `container` that is not the window or an element. For these, `PassSettingsOf` returns `None` and `LazyLoad.Update` requires `Some`. An `undefined` `failure_limit` also gives `None`, although the source would then never stop early (`++counter > undefined` is false). The merge over the defaults never produces it (`ConfiguredKeepsDefaultKeys`).
- Dom.SetAttr: `attr("src", v)` is modelled only for a string `v` (stored) and `null` (attribute removed). For any other placeholder value, the model leaves `src` as it was, whereas jQuery would store its string form.
- Settings.Extend: jQuery also skips a property whose value is the target object itself, and the key `__proto__`. The model has no object values, so the first case cannot arise. The model does not skip a `__proto__` key: it copies it like any other defined key.
- Options that are truthy but not an object, such as a non-empty string or a number, are not modelled. `options` is either `null` (any falsy value) or a `JsObject`.
- Pixel values are unbounded integers. JavaScript numbers are doubles, and their rounding at very large magnitudes is not modelled.
