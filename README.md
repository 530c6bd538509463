# ScholarChart router and keyframe animator, modelled in Dafny

ScholarChart is a small client-side site. At page load, `run` in `src/main.ts` does three things:

- It resolves `window.location.pathname` against an ordered route table. Each route has a pathname, an optional title and a render function. An unmatched path falls back to a fixed "404 Not Found" route.
- It sets the document title.
- It reports a page view to analytics unless it is a development build, then calls the route's render function.

Development builds also register a `/dev` route. Its page runs a keyframe animation driven by `requestAnimationFrame`. Each frame finds the last keyframe at or before the elapsed time. It then either waits, writes the final value and stops, or writes a linear blend towards the next keyframe and asks for another frame.

The model has four modules:

- `Wrappers` (`wrappers.dfy`): the `Option` type, which stands for `T | undefined`.
- `Routes` (`routes.dfy`):
  - the route table, as records whose render function is a `RenderTag`;
  - its start-up construction, `BuildRoutes`, which is the literal list followed by a conditional push;
  - first-match lookup with the not-found fallback.
- `Activation` (`activation.dfy`):
  - the document-title formula;
  - the ordered effects of `activateRoute`, as a trace of `Event`s;
  - a `Document` class whose `ActivateRoute` and `Run` methods perform those effects step by step.
- `Animator` (`animator.dfy`):
  - keyframes and `linearInterpolate`;
  - the count-down scan `getPrevKeyframeIndex`, as a method with a loop, specified by the function `PrevIndex`;
  - the frame step, as the pure function `Step` over the run state (the optional start timestamp);
  - an `Animation` class whose `Animate` method mutates that state and the controlled style value as the callback does;
  - runs of several frames.

The development flag (`isDevEnv()`) is an input boolean. The analytics calls, the render call and the title assignment are trace events. The `requestAnimationFrame` request is the frame's `reschedule` result. The style write is the `marginLeft` field. All numbers are `real`.

Facts about the code that the model keeps:

- The code never checks that the keyframes are sorted, and the frame step is total without it. The interpolation parameter always lies in [0, 1), because the scan guarantees `prev.time <= elapsed < next.time`. The lemmas that need an order assume only non-decreasing times.
- When keyframe times are equal, the reverse scan picks the *last* such keyframe.
- The run's captured state is only the start timestamp. The last written value lives in the style property, which is `Animation.marginLeft` here.

## Model

| member | source | states |
|---|---|---|
| Routes.BuildRoutes | src/main.ts:21-165 | the table is the base list in order, with `/dev` appended last exactly in a development build |
| Routes.RouteTableDevIff | src/main.ts:164-167 | the table has an entry with pathname `/dev` if and only if the dev flag holds, and that entry is the last one |
| Routes.RouteTable | src/main.ts:21-165 | the table is the base list in order, one entry longer in a development build, whose last entry is then the `/dev` route |
| Routes.RouteTableWellFormed | src/main.ts:21-165 | pathnames in either table are unique |
| Routes.NotFoundRoute | src/main.ts:244-253 | the fallback's pathname `/404` belongs to no entry of either table, so the fallback never shadows or duplicates a real page |
| Routes.NotFoundPathUnused | src/main.ts:21-246 | no entry of either table has pathname `/404` |
| Routes.FindIndex | src/main.ts:257 | the index found is the first entry whose pathname equals the path; none is found exactly when no entry matches |
| Routes.GetCurRoute | src/main.ts:255-258 | a matching path gives an entry of the table with that pathname; an unmatched path gives the not-found route; it never fails |
| Routes.GetCurRouteFirstMatch | src/main.ts:257 | the lookup returns exactly the first table entry whose pathname is the path |
| Routes.GetCurRouteOfEntry | src/main.ts:255-258 | with unique pathnames, looking up an entry's pathname returns that entry itself |
| Routes.ResolveDev | src/main.ts:164-258 | `/dev` resolves to the demo route in a development build and to the not-found route otherwise |
| Routes.ResolveBase | src/main.ts:21-258 | each base page resolves to itself in either kind of build |
| Activation.DocumentTitle | src/main.ts:262-264 | the title is exactly `ScholarChart` when the route has no title; otherwise it is the route title, then ` - `, then `ScholarChart` |
| Activation.DocumentTitleInjective | src/main.ts:262-264 | routes with different optional titles get different document titles |
| Activation.ActivationTrace | src/main.ts:260-274 | the activation has two effects in development and four otherwise, begins by setting the formatted title and ends by rendering the route; further specified by the lemmas below |
| Activation.ActivationTraceCases | src/main.ts:260-274 | the effects are set-title then render in development; set-title, init, track, render otherwise |
| Activation.AnalyticsIffNotDev | src/main.ts:267-271 | analytics initialisation and page-view tracking happen if and only if it is not a development build |
| Activation.TitleSetFirst | src/main.ts:262-271 | the title is set exactly once, before analytics and render |
| Activation.RenderOnceLast | src/main.ts:273 | the render function is called exactly once, with the route's tag, after all other effects |
| Activation.InitBeforeTrack | src/main.ts:268-270 | analytics is initialised before the page view is tracked |
| Activation.Document.ActivateRoute | src/main.ts:260-274 | the document title becomes the formatted title, and the effects appended are exactly the activation trace |
| Activation.Document.Run | src/main.ts:276-278 | page start-up activates the route that lookup in the built table gives for the pathname |
| Activation.UnknownPathActivation | src/main.ts:244-273 | an unknown path sets the title `404 Not Found - ScholarChart` and renders the not-found page |
| Animator.LinearInterpolate | src/main.ts:174-176 | blending at t = 0 gives the start value, and at t = 1 the end value |
| Animator.LinearInterpolateBetween | src/main.ts:174-176 | for t in [0, 1] the blend lies between the start and end values |
| Animator.PrevIndex | src/main.ts:189-198 | the result is the largest index whose time is at or before the elapsed time, or none when every keyframe is later |
| Animator.PrevIndexUnique | src/main.ts:189-198 | at most one answer meets that description |
| Animator.GetPrevKeyframeIndex | src/main.ts:189-198 | the count-down loop with early return computes exactly `PrevIndex` |
| Animator.PrevIndexNoneIff | src/main.ts:189-198 | for keyframes in non-decreasing time order nothing is found exactly when the table is empty or the elapsed time is before the first keyframe |
| Animator.PrevIndexLastIff | src/main.ts:191-195 | the scan returns the last keyframe exactly when the elapsed time has reached its time |
| Animator.Progress | src/main.ts:231 | when prev is at or before the elapsed time and next after it, the progress is in [0, 1) |
| Animator.Outcome | src/main.ts:215-236 | the three-way frame decision: a frame that writes nothing reschedules, and a frame that stops writes the last keyframe's value; both directions are in the lemmas below |
| Animator.OutcomeNoUpdateIff | src/main.ts:215-219 | a frame writes no value exactly when every keyframe is after the elapsed time, and then it reschedules |
| Animator.OutcomeTerminatesIff | src/main.ts:221-227 | for non-empty keyframes a frame stops the run exactly when the elapsed time has reached the last keyframe's time, and then it writes that keyframe's value |
| Animator.OutcomeInterpolates | src/main.ts:229-236 | between two consecutive keyframes of a non-decreasing sequence the frame writes their linear blend at the progress, which lies between their values, and reschedules |
| Animator.ElapsedSec | src/main.ts:212-213 | the elapsed seconds, scaled back to milliseconds, span exactly from the start to the frame's timestamp |
| Animator.Step | src/main.ts:207-236 | after a frame a start timestamp is always recorded, and the frame's value and reschedule decision are the outcome at the elapsed time from that start |
| Animator.StepStart | src/main.ts:207-213 | the first frame records its own timestamp as the start; a recorded start is never changed |
| Animator.RunFrames | src/main.ts:207-239 | a run never processes more frames than it is given, and it processes all of them unless it stops at a frame that does not reschedule |
| Animator.RunFramesFromStart | src/main.ts:205-236 | every frame of a run keeps the start and has the outcome for its own elapsed time (framerate independence); every frame but the last reschedules |
| Animator.RunFramesFresh | src/main.ts:205-236 | a fresh run measures every frame from the first frame's timestamp, and every frame but the last reschedules |
| Animator.RunFramesStopsWhenDone | src/main.ts:221-236 | in a fresh run every frame before the last is earlier than the last keyframe's time, and a run that stops early stops at a frame that has reached it |
| Animator.DemoAtStart | src/main.ts:178-187 | the demo keyframes give 10 at elapsed 0 and reschedule |
| Animator.DemoAtMidpoint | src/main.ts:178-187 | the demo keyframes give 105 at elapsed 1 and reschedule |
| Animator.DemoEnds | src/main.ts:178-227 | the demo gives 200 and stops at any elapsed time of 2 or more; before 0 it writes nothing and reschedules |
| Animator.Animation.constructor | src/main.ts:205 | a run starts with no start timestamp and no value written |
| Animator.Animation.Animate | src/main.ts:207-237 | one callback updates the start timestamp, the written value and the reschedule decision exactly as `Step` does |

## Left out

- The HTML markup of each page's render function (src/main.ts:26-34, 41-159, 248-251) is static content. Each render function is a `RenderTag`, and calling it is a `Render` event.
- The `/dev` page's own render body (creating the paragraph, building the animation and requesting its first frame, src/main.ts:169-171 and 239) is not a member. The `Animation` constructor models the state that body creates.
- The stylesheet and icon-font imports and `feather.replace()` on `DOMContentLoaded` (src/main.ts:1-7, 280-282) are foreign library calls and DOM wiring.
- `initAnalytics`, `trackPageView` and `isDevEnv` come from modules that are not part of this model. The first two are trace events. The third is an input boolean, assumed to give the same answer at both of its call sites.
- `requestAnimationFrame` and the host's frame timing are not modelled, so there is no event loop. A frame's request for the next frame is its `reschedule` result. `RunFrames` takes the callback timestamps as an input sequence.
- The style write formats the value as `${value}px`. The model records the number.
- IEEE-754 rounding, NaN and infinities are left out. Numbers are mathematical reals.
- The missing `#route-container` element (the non-null assertion at src/main.ts:261) is treated as a precondition of the page, not as a modelled error.
