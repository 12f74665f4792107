# iwell page interactivity, modelled in Dafny

This project models the state behind the two page scripts of the iwell
marketing site, `ime.js` and `script.js`. Each DOM node list becomes an array of
flags (`active`, `left`/`right`, shown/hidden). Each event handler becomes a
method on a controller object whose fields are the script's shared variables
(`currentIndex`, `isUserInteracting`, the `isAutoScrolling` lock, the lightbox's
display and source fields). Timers are not run. A handler that sets timers
returns them as (delay, action) values, and a `Fire` method performs one
action. Layout measurements are inputs: an element's top, whether a panel is
centred, whether an observer entry intersects.

Modules, one per component:

- `Hero` (hero.dfy): the accordion panels, `activatePanel`, hover and click focus, the scroll spy, and the 3000 ms autoplay tick.
- `ScrollReveal` (scroll_reveal.dfy): the one-shot `.reveal` observer of `ime.js`.
- `Carousel` (carousel.dfy): the 3D carousel. The index arithmetic and the class assignment are functions; the item array and `currentIndex` live in a class.
- `BackgroundUrl` (background_url.dfy): a hand-written matcher for the pattern `/url\(["']?([^"']*)["']?\)/`. It tries alternatives in the same order as a backtracking regular-expression engine.
- `Lightbox` (lightbox.dfy): the overlay with its image and video.
- `ItemClick` (item_click.dfy): a click on a carousel item. The rotation listener runs first, then the lightbox listener.
- `WaveReveal` (wave_reveal.dfy): the `script.js` lock, `initialCheck`, the muted observer, and the wave trigger with its staggered schedule.
- `DotSync` (dot_sync.dfy): the mobile dot indicator.
- `Wrappers` (wrappers.dfy): `Option`.

## Model

| member | source | states |
|---|---|---|
| Hero.HeroPanels.constructor | ime.js:8-9 | panels hold the markup's flags, no interaction is flagged, and autoplay is running |
| Hero.HeroPanels.RemoveActiveClasses | ime.js:11-15 | afterwards no panel is active |
| Hero.HeroPanels.ActivatePanel | ime.js:17-21 | the new flags are `Activated(old, p)`: unchanged if p was active, otherwise p alone |
| Hero.Activated | ime.js:17-21 | p is active afterwards and the number of panels is kept |
| Hero.ActivatedIsOnly | ime.js:17-21 | if at most one panel was active before, p is the only active panel afterwards |
| Hero.HeroPanels.Focus | ime.js:24-26 | autoplay stops and p is activated as by `activatePanel` |
| Hero.HeroPanels.ActiveIndex | ime.js:93-96 | the result is the highest index carrying `active`, or 0 when no panel does |
| Hero.TickTarget | ime.js:93-97 | the panel the tick activates is a valid index |
| Hero.HeroPanels.Tick | ime.js:89-107 | nothing happens while `isUserInteracting` is set or the interval is cleared; otherwise panel (k+1) mod N is activated; the narrow path also stops autoplay; with no panels the handler throws |
| Hero.TickMovesOn | ime.js:91-104 | from panel k alone active, a tick leaves panel (k+1) mod N alone active |
| Hero.HeroPanels.ScrollStart | ime.js:64-66 | autoplay stops and the user counts as interacting |
| Hero.HeroPanels.ScrollSettle | ime.js:70-83 | every centred panel is activated in list order, then `isUserInteracting` is cleared |
| Hero.ActivateCentred | ime.js:74-81 | the flags after activating, in list order, every centred panel among the first k; the length is kept |
| Hero.LastSet | ime.js:74-81 | the result is the last set position below k, or -1 when there is none |
| Hero.ActivateCentredLast | ime.js:74-81 | from at most one active panel, the scroll spy leaves exactly the last centred panel active, and changes nothing when none is centred |
| ScrollReveal.RevealObserver.constructor | ime.js:134-137 | every `.reveal` element starts observed |
| ScrollReveal.RevealObserver.Callback | ime.js:125-131 | an element gains `active` iff some entry reports it intersecting, and that element stops being observed; no flag is ever cleared |
| ScrollReveal.RevealIsPermanent | ime.js:125-131 | a revealed element stays revealed through any sequence of callbacks |
| Carousel.Next | ime.js:165 | the index after `goNext` lies in [0,N) and wraps from N-1 to 0 |
| Carousel.Prev | ime.js:170 | the index after `goPrev` lies in [0,N) and wraps from 0 to N-1 |
| Carousel.Render | ime.js:150-161 | an item carries at most one of active/left/right, and it is active iff its index is the current one |
| Carousel.NextTimes | ime.js:164-167 | after one or more `goNext` steps the index lies in [0,N) |
| Carousel.NextTimesWraps | ime.js:164-167 | k forward steps from cur land on cur+k, wrapped once |
| Carousel.FullLap | ime.js:164-167 | N calls to `goNext` return to the start |
| Carousel.NextPrevInverse | ime.js:164-172 | `goPrev` undoes `goNext`, and the reverse |
| Carousel.RenderRing | ime.js:150-161 | with N >= 3, the current item is active, its predecessor left, its successor right, these are distinct, and every other item is plain |
| Carousel.RenderPair | ime.js:154-158 | with N = 2 the single neighbour gets `left` |
| Carousel.RenderSingleFromStart | ime.js:146-161 | with one item, the start index 1 is out of range, the item is rendered `left`, and the first step brings the index back to 0 |
| Carousel.ThreeItemsNext | ime.js:164-166 | three items at index 1, then `goNext`: index 2 with {2: active, 1: left, 0: right} |
| Carousel.Carousel3D.constructor | ime.js:146-188 | the index starts at 1 and the items are rendered from it |
| Carousel.Carousel3D.UpdateCarousel | ime.js:150-162 | every item carries exactly the classes `Render` assigns for the current index |
| Carousel.Carousel3D.GoNext | ime.js:164-167 | the index becomes `Next(old)` and the items are re-rendered |
| Carousel.Carousel3D.GoPrev | ime.js:169-172 | the index becomes `Prev(old)` and the items are re-rendered |
| Carousel.Carousel3D.ClickItem | ime.js:178-185 | the index becomes i; the items are re-rendered unless i was already current, in which case nothing changes |
| Carousel.Carousel3D.TouchStart | ime.js:196-198 | the start position is recorded |
| Carousel.Carousel3D.TouchEnd | ime.js:200-205 | a swipe more than 50px left goes forward, more than 50px right goes back, and a swipe within ±50px changes nothing |
| BackgroundUrl.RunEnd | ime.js:251 | the greedy `[^"']*` run from i stops at the first quote or at the end |
| BackgroundUrl.LastClose | ime.js:251 | the capture ends at the largest position in range where an optional quote and `)` follow, or none exists |
| BackgroundUrl.MatchAt | ime.js:251 | a successful attempt at `url(` is an occurrence of the pattern there, with a quote-free capture |
| BackgroundUrl.Search | ime.js:251 | a match found from p is an occurrence at or after p |
| BackgroundUrl.FindUrl | ime.js:251 | a match is an occurrence of the pattern whose capture holds no `"` or `'` |
| BackgroundUrl.MatchAtComplete | ime.js:251 | wherever the pattern occurs, the attempt at that `url(` succeeds |
| BackgroundUrl.SearchComplete | ime.js:251 | the search finds a match whenever one occurs at or after p, and never a later one |
| BackgroundUrl.FindUrlLeftmost | ime.js:251 | the match is found whenever the pattern occurs, and it is the leftmost occurrence |
| BackgroundUrl.RunEndAt | ime.js:251 | the greedy run ends exactly at the first quote or at the end |
| BackgroundUrl.MatchWrapped | ime.js:251 | an attempt at the start of `url(` q u q `)` captures exactly u |
| BackgroundUrl.ExtractWrapped | ime.js:251 | any quote-free address in `url(...)`, with or without either quote, is captured exactly |
| Lightbox.ImageAddress | ime.js:246-252 | the image address is non-empty and quote-free, and a `none` or empty background gives none |
| Lightbox.ImageAddressOfQuotedUrl | ime.js:249-258 | a non-empty quote-free address written as `url("...")` becomes the image source |
| Lightbox.Lightbox.constructor | ime.js:212-214 | the overlay starts closed with empty sources and neither medium shown |
| Lightbox.Lightbox.Open | ime.js:220-264 | a `.c-item` lacking `active` changes nothing; a video hides the image and shows and plays the video; a matched background hides the video and shows the image with the captured source; the overlay opens in every other case, even when no URL matched; image and video are never both shown |
| Lightbox.Lightbox.Close | ime.js:268-283 | only a click on the overlay, the image or the video closes it; that click pauses and rewinds the video and schedules the source clearing at 300 ms |
| Lightbox.Lightbox.Fire | ime.js:278-281 | the delayed clearing empties both sources and changes nothing else |
| ItemClick.SideItemActiveAfterRotation | ime.js:223-225 | a side item lacks `active` before the click but carries it when the lightbox guard runs |
| ItemClick.ClickCarouselItem | ime.js:179-264 | as the page runs it, clicking any carousel item rotates it to the centre and then opens the lightbox |
| ItemClick.ClickCarouselItemIntended | ime.js:222-227 | with the guard reading the item's classes from before the click, a side item only rotates and the lightbox is left as it was |
| WaveReveal.ScheduleWave | script.js:92-104 | target i is revealed at i*150+300 ms; with n >= 1 targets, one unlock follows at (n-1)*150+1300 ms; with none, no timer is set |
| WaveReveal.WaveOrdered | script.js:92-104 | the timers' delays strictly increase, consecutive reveals lie 150 ms apart, and the first reveal is at 300 ms |
| WaveReveal.UnlockOnce | script.js:92-103 | with n >= 1 targets the lock is released by exactly one timer, 1000 ms after the last reveal; with none it is never released |
| WaveReveal.ThreeTargetWave | script.js:92-104 | three targets are revealed at 300, 450 and 600 ms, and the lock is released at 1600 ms |
| WaveReveal.WavePage.InitialCheck | script.js:27-38 | exactly the `.reveal-up` elements whose top lies above the viewport's bottom gain `active`; every other flag is unchanged; none is removed |
| WaveReveal.WavePage.constructor | script.js:6-40 | the lock starts free and `initialCheck` has run once |
| WaveReveal.WavePage.ObserverCallback | script.js:9-18 | while the lock is held nothing changes; otherwise only intersecting targets gain `active` |
| WaveReveal.WavePage.HideTargets | script.js:78-80 | every target loses `active` and every other flag is kept |
| WaveReveal.WavePage.WaveClick | script.js:68-104 | the lock is taken and every target is hidden before any timer fires, since the earliest timer is at 300 ms |
| WaveReveal.WavePage.Fire | script.js:93-102 | a reveal timer adds `active` to its target; the unlock timer frees the lock and reruns `initialCheck` |
| WaveReveal.WavePage.RunWave | script.js:68-104 | after a whole wave, every target is active again and the lock is free |
| DotSync.LastSync | script.js:114-123 | the result is none iff no intersecting card carries `data-index`; otherwise it is the index of such a card |
| DotSync.DotIndicator.constructor | script.js:111-113 | the dots hold the markup's flags; there is at least one dot, as the observer is created only then |
| DotSync.DotIndicator.ClearDots | script.js:119 | afterwards no dot is active |
| DotSync.DotIndicator.Callback | script.js:114-123 | after an intersecting card with `data-index` k, dot k is the only active dot; cards without `data-index` leave the dots unchanged; a missing dot throws with every dot cleared |
| DotSync.LastSyncAppend | script.js:115-121 | an intersecting card with `data-index` decides the dots, and any other card leaves the outcome as it was |

## Findings

| source | as written | input that shows it | evidently intended | confidence | as-written member | corrected member |
|---|---|---|---|---|---|---|
| ime.js:179, ime.js:220-227 | Item i has two click listeners. The rotation listener is registered first, so it runs first and makes item i `active`. The lightbox guard then sees `active` and does not return. | three items with index 1 current; click item 0 | the comment at ime.js:223-224 says a click on a side item should only rotate the carousel and not open the lightbox | high (not executed) | ItemClick.ClickCarouselItem, with ItemClick.SideItemActiveAfterRotation | ItemClick.ClickCarouselItemIntended |

## Left out

- DOM querying, `addEventListener` wiring and null checks: every element is assumed present. Whether an observer entry intersects is an input; the thresholds and root margins are not modelled.
- Layout geometry is an input: the scroll spy's centre test (ime.js:71-80) and the `getBoundingClientRect` tops in `initialCheck`. The `focusPanel` centring scroll (ime.js:28-43) is not modelled at all.
- Timer mechanics are left out: `setInterval`, `setTimeout`, the 100 ms scroll debounce and `clearTimeout`. The autoplay interval is a flag, and a cleared interval delivers no tick. The wave and the lightbox's source clearing return their timers as (delay, action) values. Interleaving with other events while timers are pending is not modelled. For example, a lightbox reopened within 300 ms of closing can have its new sources cleared.
- WaveReveal.ScheduleWave: gives the unlock's delay from the click, (n-1)*150+1300 ms. In the source, the last reveal sets a 1000 ms timer when it fires.
- Media and scrolling side effects are foreign browser calls and are modelled only as far as the handlers set fields. `play` and `pause` become a `videoPlaying` flag. `currentTime = 0` becomes a `videoTime` field. The element that `scrollTo`, `scrollIntoView` and the document-height calculation (script.js:83-89) scroll to is not modelled.
- Carousel.Carousel3D.GoNext: with no items, the source computes `% 0` and the index becomes NaN, which an integer cannot hold. The model leaves the index unchanged. Nothing is observable either way, because no item carries classes. The same holds for Carousel.Carousel3D.GoPrev.
- DotSync.DotIndicator.Callback: `data-index` is an optional integer. The source indexes the dots with the attribute's text, so non-numeric or non-canonical text (such as "x" or "01") also finds no dot and throws. The model covers that through an out-of-range index.
- The element click that `e.stopPropagation()` stops from bubbling further, and the `.reveal` and `.reveal-up` observers' `observe` calls, are observer and event plumbing.
- DotSync.DotIndicator.constructor: the guard at script.js:113 also requires at least one `.feature-card`; the model assumes the cards are present and takes their entries as input.
- The cursor-follow login button (script.js:132-142) is left out. It writes floating-point offsets into a CSS transform and holds no state.
- Regular expressions in general are left out; only the one `url(...)` pattern is matched, by hand.
