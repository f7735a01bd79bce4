# Section-visibility dispatcher of a single-page site, in Dafny

This project models the page-interaction core of a single-page personal site:

- **`Tabs`** (`tabs.dfy`, from `JS/MainPage/mainPage.js`) is the `SiteTabs` lifecycle
  registry plus the active-link tracker. Per-section scripts register an optional
  `onEnter`/`onLeave` pair under a section id. Navigation links get the `active` class
  from clicks, Enter/Space key presses and intersection-observer batches. Hovering a
  link gives it a transient `preview` class. Intersecting sections dispatch `onEnter`
  for themselves and `onLeave` for the previously visible section.
- **`About`** (`about.dfy`, from `JS/MainPage/aboutPage.js`) is the About section's
  registered handlers. A one-shot lazy image swap and card fade-in are guarded by the
  section's `inited` flag. The avatar wrapper is focused on every enter and blurred on
  leave. Without a registry, the one-shot part runs once at load instead.
- **`Wrappers`** (`wrappers.dfy`) holds `Option`, which stands for JavaScript's `null`.

The closure state of the main page's load handler is the class `Tabs.SiteTabs`:

- `links`: the section id each navigation link targets, in document order; a link is its index.
- `present`: the ids that resolve to an element.
- `handlers`: the registry.
- `current` (`currentActive`) and `lastVisible` (`lastVisibleId`).
- `activeMark` and `previewMark`: one array of booleans per class, one entry per link.
- `trace`: the callbacks dispatched so far, as `Enter(id)`/`Leave(id)` events.

`Valid()` says the `active` marks are exactly `Marks(|links|, current)`. So at most one
link is ever active, and it is `currentActive`. `Click`, `KeyDown` and `Activate` are
proved against `ClickStep`, a function on the value `Dispatch(current, lastVisible, trace)`.
`OnIntersect` is proved against `StepBatch`, which applies `StepEntry` to each entry
in report order. The lemmas about
those functions state the dispatch order, last-writer-wins and which sections can
receive `Leave`.

Behaviour of the code worth noting:

- Within one intersecting entry, `onEnter` for the new section is dispatched **before**
  `onLeave` for the previous one (`JS/MainPage/mainPage.js:74-82`). See `EntryDispatchOrder`,
  `StepEntryDispatches` and `TwoSectionScenario`.
- The fade-in starts 6px down (`translateY(6px)`).
- No focus target is created when the avatar wrapper is missing; focus then stays where it was.
- The no-registry fallback does not set `inited`.

## Model

| member | source | states |
|---|---|---|
| `Tabs.FirstLink` | JS/MainPage/mainPage.js:68 | The link found for an id is the first, in document order, whose target is that id; none is found exactly when no link targets it. |
| `Tabs.EnterEvents` | JS/MainPage/mainPage.js:75-76 | Dispatching `onEnter` for a section produces at most one event, `Enter` of that section. It produces it exactly when the section registered an `onEnter` function. |
| `Tabs.LeaveEvents` | JS/MainPage/mainPage.js:79-82 | Dispatching `onLeave` produces at most one `Leave` event, for the last visible section, which differs from the new one. It produces it exactly when `lastVisibleId` is set, non-empty, differs from the new id and registered an `onLeave` function. |
| `Tabs.ClickStep` | JS/MainPage/mainPage.js:26-36 | A click on a link whose section is absent changes nothing. Otherwise that link becomes the active one and `lastVisibleId` is kept. The trace gains `Enter` of that section exactly when the section is present and registered an `onEnter`, and nothing else. |
| `Tabs.StepEntry` | JS/MainPage/mainPage.js:67-85 | A non-intersecting entry, or one whose id no link targets, changes nothing. An intersecting entry with a link sets `lastVisibleId` to its id and makes that section's first link active. |
| `Tabs.StepEntryDispatches` | JS/MainPage/mainPage.js:71-84 | An intersecting, linked entry keeps the trace so far and appends at most two callbacks. `Enter(id)` is appended iff `id` registered an `onEnter`. `Leave(x)` is appended iff `x` was `lastVisibleId`, is non-empty, differs from `id` and registered an `onLeave`. When both are appended, `Enter` comes first. No other `Enter` is appended. |
| `Tabs.StepBatch` | JS/MainPage/mainPage.js:65-86 | A batch, processed entry by entry in report order, only appends to the trace. Its `lastVisibleId` is either the old one or a section some link targets. |
| `Tabs.EntryDispatchOrder` | JS/MainPage/mainPage.js:74-82 | One entry dispatches at most two callbacks. `Enter(id)` is dispatched iff `id` registered an `onEnter`. `Leave(x)` is dispatched iff `x` was `lastVisibleId`, is non-empty, differs from `id` and registered an `onLeave`. When both are dispatched, `Enter` comes first. No `Enter` for another section is dispatched. |
| `Tabs.BatchWithoutHit` | JS/MainPage/mainPage.js:66-86 | A batch in which no entry is both intersecting and linked leaves the whole state and the trace as they were. |
| `Tabs.BatchLastWriterWins` | JS/MainPage/mainPage.js:65-86 | After a batch, `lastVisibleId` is the id of the last intersecting, linked entry, and the active link is that section's first link. |
| `Tabs.BatchDispatchesOnlyVisited` | JS/MainPage/mainPage.js:65-86 | A batch only appends to the trace. Every `Enter` it adds is for a registered section that an entry of the batch made visible. Every `Leave` is for a registered, non-empty section id that was visible before the batch or was made visible by one of its entries. So nothing is left that was never visible. |
| `Tabs.NoLeaveBeforeFirstHit` | JS/MainPage/mainPage.js:79-84 | When no section was visible before a batch, the entries up to and including the first intersecting, linked one dispatch only `Enter` events. So no `Leave` precedes the first intersecting entry. |
| `Tabs.TwoSectionScenario` | JS/MainPage/mainPage.js:71-84 | Sections `section2` then `section4` intersect. The first dispatches no `onLeave`. The second dispatches `Enter(section4)` and then `Leave(section2)`, and moves the active link to `section4`'s. |
| `Tabs.SiteTabs.constructor` | JS/MainPage/mainPage.js:94-96 | At load the registry is empty, nothing is visible and nothing is dispatched. An observer exists iff the platform has one and some link targets an existing section. Without one, the first link (if any) is made active at once. |
| `Tabs.SiteTabs.AtMostOneActive` | JS/MainPage/mainPage.js:57-61 | In every valid state, at most one link carries `active`. |
| `Tabs.SiteTabs.Register` | JS/MainPage/mainPage.js:15-17 | The pair is stored under the id, silently replacing an earlier one. Every other id and all dispatcher state are unchanged. |
| `Tabs.SiteTabs.SetActive` | JS/MainPage/mainPage.js:57-61 | Afterwards exactly one link carries `active`, namely the given one, and it is `currentActive`. |
| `Tabs.SiteTabs.Click` | JS/MainPage/mainPage.js:26-36 | The new state is `ClickStep` of the old one. The registry is unchanged and at most one link stays active. |
| `Tabs.SiteTabs.KeyDown` | JS/MainPage/mainPage.js:39-44 | Enter and Space act exactly as a click on that link. Any other key changes nothing. |
| `Tabs.SiteTabs.Activate` | JS/MainPage/mainPage.js:18-21 | Acts exactly as a click on the first link that targets the id. With no such link it changes nothing. |
| `Tabs.SiteTabs.MouseEnter` | JS/MainPage/mainPage.js:47-50 | Exactly the hovered link is previewed. The `active` marks are unchanged. |
| `Tabs.SiteTabs.MouseLeave` | JS/MainPage/mainPage.js:51-54 | Only the hovered link loses its preview. Re-adding `active` to `currentActive` leaves the `active` marks unchanged, because it already carries them. |
| `Tabs.SiteTabs.OnIntersect` | JS/MainPage/mainPage.js:65-86 | The new state is `StepBatch` of the old one over the entries in report order. The registry is unchanged and at most one link stays active. |
| `Tabs.SiteTabs.InitialTimer` | JS/MainPage/mainPage.js:99-101 | When it fires, the first link (if any) becomes the only active one. `lastVisibleId` and the trace are untouched. |
| `About.Loaded` | JS/MainPage/aboutPage.js:24-31 | Afterwards no deferred source is left waiting. The image is either unchanged, or has taken its `data-src` as `src` with the attribute removed. It is unchanged exactly when no truthy, different `data-src` was waiting. |
| `About.LoadedIdempotent` | JS/MainPage/aboutPage.js:24-31 | Loading the avatar twice is the same as loading it once. |
| `About.FadeStart` | JS/MainPage/aboutPage.js:13-14 | The starting opacity and transform are always set. Pre-set values are kept. Unset ones start at opacity `0` and `translateY(6px)`. |
| `About.AboutSection.constructor` | JS/MainPage/aboutPage.js:7-8 | The section as delivered: not `inited`, no frame scheduled, nothing registered, the one-shot part not yet run. |
| `About.AboutSection.EnsureAvatarLoaded` | JS/MainPage/aboutPage.js:24-31 | The avatar image becomes `Loaded` of itself. With no image nothing changes. |
| `About.AboutSection.FadeInCard` | JS/MainPage/aboutPage.js:11-21 | With a card, its starting style is committed (pre-set values kept) and one frame is scheduled. With no card nothing happens. |
| `About.AboutSection.RunFrame` | JS/MainPage/aboutPage.js:16-20 | The scheduled frame leaves the card at opacity `1` and `translateY(0)`. |
| `About.AboutSection.FocusAvatar` | JS/MainPage/aboutPage.js:34-37 | Focus moves to the avatar wrapper when there is one. Otherwise it is unchanged. |
| `About.AboutSection.OnEnter` | JS/MainPage/aboutPage.js:42-51 | The lazy load and fade-in run only while `inited` is unset, and `inited` is set afterwards. The one-shot count stays at most one. The focus attempt happens on every call. |
| `About.AboutSection.OnLeave` | JS/MainPage/aboutPage.js:52-58 | The avatar wrapper is blurred only when it holds focus. Otherwise focus is unchanged. |
| `About.EnterTwice` | JS/MainPage/aboutPage.js:42-51 | Entering twice swaps the image and starts the fade-in once, and focuses the avatar. |
| `About.Boot` | JS/MainPage/aboutPage.js:4-64 | Without the section nothing changes. With a registry, both callbacks are registered under `section2` and nothing else changes. Without one, the lazy load and fade-in run once, nothing is registered, `inited` stays unset and focus is unchanged. |

## Left out

- DOM queries are replaced by data. The links are given as the ids their `href`s target. Section existence is the set `present`. Each About element's existence is a constant.
- Smooth scrolling (`scrollIntoView`) and `preventDefault` are left out. They are platform side effects with no state here.
- Intersection-observer geometry (root margin, threshold) is left out. Each batch of `(id, isIntersecting)` entries is an input, and `OnIntersect` may only be called when an observer exists.
- Timing is left out. The 100 ms timer and the animation frame are operations the environment invokes (`InitialTimer`, `RunFrame`), not delays. The CSS `transition` value is cosmetic and not modelled.
- Callbacks are not executed. The dispatcher records each as a trace event, and the About handlers are the methods `OnEnter`/`OnLeave`. Delivering events from one module to the other is not modelled.
- Browser focus is three places (`Body`, `AvatarWrapper`, `Elsewhere`). Whether the wrapper is focusable at all is not modelled.
- `src` and `data-src` are compared as given strings. URL resolution of the `src` property is not modelled.
- The markup is assumed to start with no `active` or `preview` class on any link.
- `FirstLink`: section ids are assumed free of `"` and `\`. The source looks links up through the CSS selector `a[href="#id"]`. An id with `"` makes the lookup throw, which in the observer abandons the rest of the batch. An id with `\` is read as a CSS escape and finds no link. The model compares ids as plain strings.
- `About.AboutSection.constructor`: the section is assumed to carry no `data-inited` attribute in the markup. Any pre-set value, even `"false"`, is truthy and would disable the one-shot part for good.
- `Tabs.SiteTabs.Register`: the pair argument is assumed never to be `null`. `register(id, null)` throws at the destructuring, because the `= {}` default only covers `undefined`.
- Ids that name members of `Object.prototype` (`"__proto__"`, `"constructor"`, …) are not modelled. The registry is a plain map.
- The Socials section's handlers are not part of this model.
