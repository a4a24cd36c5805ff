# Portfolio media navigation, modelled in Dafny

This project models the media-navigation logic of a portfolio site's page script (`js/main.js`). That logic is separated from the DOM and written as pure functions over explicit state records. It covers five pieces:

- **The wrap-around index rule** (module `Cyclic`). The carousel, the flat media popup, the project album and the demo popup all share it. An index at or past the end goes to 0, a negative index goes to the last position, and anything else is kept. It is a clamp to the opposite end, not a remainder.
- **The per-showcase slide carousel** (module `Carousel`): `goToSlide`, `nextSlide` and `prevSlide`.
- **The showcase media popup** (modules `Scrape` and `MediaPopup`). One `#media-popup` element serves two modes:
  - the flat gallery over the list that `collectMediaItems` scrapes from the page (`openPopup`, `closePopup`, `displayMedia`, `nextMedia`, `prevMedia`, the `isOpen`-gated keyboard);
  - the per-project album opened from a project card (`openProjectMediaPopup`, `displayProjectMedia`). Its position is kept in the element's `data-current-project` and `data-current-media-index` attributes.
- **The demo-reel popup** (modules `DemoTour` and `DemoPopup`). A (demo, media) cursor is stepped by the next/previous buttons and the arrow keys, and the steps make one continuous cyclic tour through every demo's media. `openDemoPopup` and `displayDemoMedia` normalise the pair and store it.
- **The page both popups live on** (module `Page`). The document body's `overflow` is a single value that both popups write, so it is kept once, next to the two popup records. A keydown event runs the three page-wide listeners in the order they are registered: the media popup's, then the demo popup's Escape listener, then its arrow listener.

Module `Media` holds the shared records:
- a media record `{type, src, alt}`;
- the popup's rendering area, made of two slots (image and video), the image's alt text and a caption line;
- the inline `display` of a popup element;
- a popup's rotation timer handle;
- the keys the keydown listeners tell apart.

Module `Optional` models attributes, elements and globals that may be absent.

Reading `.media` of a demo that does not exist, which happens when an arrow key or a demo button meets an empty demo list, throws in the script; the model keeps that case as the outcome `Threw`. One other throw is not modelled: reading `.length` of a media list that a project or demo record lacks altogether (js/main.js:880, 900, 930, 937; see "Left out").

Observed behaviour, captured as the script has it:
- The media popup's keyboard listener acts only while `isOpen`, and only `openPopup` sets `isOpen`. An album opened from a project card is therefore visible, but Escape and the arrow keys do nothing in it (`MediaPopup.ProjectAlbumIgnoresKeys`).
- The demo popup has two guards. The Escape listener tests `display !== 'none'` and the arrow listener returns on `display === 'none'`. They are spelled differently but test the same thing. Both pass whenever `#demo-popup`'s inline display is not 'none', whether or not a demo was ever opened. The markup may set that style. Every demo close sets it too, including the close that any Escape triggers while the element is not hidden. So on a freshly loaded page whose markup does not hide `#demo-popup`, the arrow keys already move the demo cursor before any demo is opened (`DemoPopup.DemoKeysLiveBeforeOpen`). After the first Escape, or with the style in the markup, they do nothing until a demo is opened (`Page.EscapeSilencesUnopenedDemo`).
- Closing the demo popup keeps its stored pair. Closing the media popup deletes both data attributes and nulls its timer handle.
- Page scrolling is one value for both popups. Escape on an album opened from a project card does not close the album. Yet while `#demo-popup`'s inline display is not 'none', the demo popup's Escape listener still writes `overflow = 'auto'`: the album stays on screen and the page scrolls under it. This is the case on a freshly loaded page whose markup does not hide the element (`Page.EscapeUnlocksUnderAlbum`). Once a demo has been opened and closed, the close has set the element's display to 'none', and Escape leaves the album's scrolling off (`Page.ClosedDemoKeepsAlbumLocked`).

Behaviour of the index rules worth noting:
- The wrapped index is not `((i % N) + N) % N` for every `i`. The script clamps: `N + 1` goes to 0 and `-2` goes to `N - 1`. For N of at least 2, the two agree on every index from -1 through N, which are the indices a single step from a valid position produces, and they differ at N + 1 and at -2 (`Cyclic.WrapIsClampNotModulo`).
- `displayDemoMedia` does not carry an overflowing media index into the neighbouring demo. It wraps within the demo. The carrying from one demo into the next is done only by the next/previous handlers (`DemoPopup.DisplayWrapsWithinDemo`).
- The next/previous buttons of the media popup are not gated on the open state. Only the keyboard listener is.

## Model

| member | source | states |
|---|---|---|
| Cyclic.Wrap | js/main.js:546-556 | For a non-empty list the wrapped index is always in [0, N): an index already in range is kept, any index at or past N becomes 0, and any negative index becomes N-1 |
| Cyclic.WrapIsClampNotModulo | js/main.js:549-555 | For N of at least 2, the wrap agrees with the true modulo for every index from -1 through N. N+1 gives 0 (not 1) and -2 gives N-1 (not N-2), so it is a clamp, not a modulo |
| Cyclic.Succ | js/main.js:201-203 | One "next" step from a valid index is (i + 1) mod N |
| Cyclic.Pred | js/main.js:205-207 | One "previous" step from a valid index is (i - 1 + N) mod N |
| Cyclic.SuccN | js/main.js:201-203 | k "next" steps from a valid index land on (i + k) mod N, always in range |
| Cyclic.SuccPredInverse | js/main.js:194-207 | Previous undoes next and next undoes previous on valid indices |
| Cyclic.SuccFullCycle | js/main.js:194-203 | N "next" steps return to the start, and the N indices visited are pairwise distinct |
| Carousel.Init | js/main.js:157-160 | A carousel is set up exactly when it has slides, and it starts on slide 0 |
| Carousel.GoToSlide | js/main.js:194-199 | The carousel's two sequential tests always give a valid slide and keep an in-range index |
| Carousel.GoToSlideIsWrap | js/main.js:194-199 | The carousel's two sequential tests compute the same index as the popups' if / else-if wrap rule |
| Carousel.NextSlide | js/main.js:201-203 | Next moves to the wrapped successor slide and stays valid |
| Carousel.PrevSlide | js/main.js:205-207 | Previous moves to the wrapped predecessor slide and stays valid |
| Carousel.NextSlideN | js/main.js:201-203 | k next presses land on the k-th wrapped successor |
| Carousel.NextPrevInverse | js/main.js:201-207 | Previous undoes next and next undoes previous on every valid carousel |
| Carousel.FullRotation | js/main.js:201-203 | Advancing once per slide returns to the starting slide after visiting each slide once |
| Media.Render | js/main.js:560-580 | After rendering, exactly one slot is visible: the one matching the record's kind, with its source. An image gets its alt text, and the caption is untouched |
| Scrape.TitleText | js/main.js:476 | A present, non-empty title is kept; a missing title element or an empty title text becomes "Project"; so a label is never empty |
| Scrape.SlideMedia | js/main.js:479-502 | A slide yields an entry iff it has an img, or a video with a source. An img wins over a video, and a video is taken from its first source with alt "Video" |
| Scrape.SlidesMedia | js/main.js:477-503 | A run of slides yields at most one entry per slide |
| Scrape.Collect | js/main.js:471-505 | The scraped list is no longer than the total slide count |
| Scrape.CollectMediaItems | js/main.js:471-505 | The nested walk over items and slides computes exactly the reference list, of length at most the slide count |
| Scrape.SlidesMediaAppend | js/main.js:477-503 | Slide order is kept: scraping a + b gives a's entries followed by b's |
| Scrape.CollectAppend | js/main.js:475-504 | Document order is kept across showcase items |
| Scrape.SlidesMediaMembers | js/main.js:477-503 | An entry is scraped from a run iff some slide of the run yields it |
| Scrape.CollectMembers | js/main.js:471-505 | An entry is in the scraped list iff some slide of some item yields it under that item's title |
| MediaPopup.Init | js/main.js:465-510 | The popup starts closed, with the scraped list, no project attributes, and a state satisfying the invariant |
| MediaPopup.DisplayMedia | js/main.js:546-582 | A no-op on an empty list. Otherwise the stored index is the wrapped one and the stage shows that entry with its alt as caption. Nothing else changes |
| MediaPopup.OpenPopup | js/main.js:524-532 | On an empty list nothing changes. Otherwise the popup is open and visible, the clicked entry is shown, and the project attributes and timer are untouched |
| MediaPopup.ClosePopup | js/main.js:534-544 | Whatever the prior state: closed, hidden, both data attributes deleted, timer handle nulled, invariant kept |
| MediaPopup.DisplayProjectMedia | js/main.js:785-827 | A no-op for a project without media. Otherwise it shows the wrapped media and stores the wrapped, in-bounds index. Nothing else changes |
| MediaPopup.OpenProjectMediaPopup | js/main.js:738-755 | A no-op for a project without media. Otherwise it starts at media 0 of that project, shows it with the project title, clears a running timer, and leaves `isOpen` unchanged |
| MediaPopup.NextMedia | js/main.js:583-592 | In project mode: the wrapped successor within the same project, shown and in bounds. Otherwise: the wrapped successor in the flat list. The invariant is kept and `isOpen` is unchanged |
| MediaPopup.PrevMedia | js/main.js:594-603 | The mirror image of NextMedia with the wrapped predecessor |
| MediaPopup.OnKeydown | js/main.js:615-621 | Keys do nothing unless `isOpen`. While open, Escape closes and hides, ArrowRight is exactly the next button, ArrowLeft exactly the previous button, and other keys change nothing; the invariant is kept |
| MediaPopup.OnlyOpenPopupSetsIsOpen | js/main.js:524-544 | From a closed state every operation but `openPopup` leaves `isOpen` false, and `openPopup` sets it iff the list is non-empty |
| MediaPopup.ProjectAlbumIgnoresKeys | js/main.js:738-755 | An album opened from a card is visible, yet every key leaves it unchanged |
| MediaPopup.NextMediaN | js/main.js:583-592 | k next presses keep the invariant and the project, and land on the k-th wrapped successor in the active mode |
| MediaPopup.FullCycleReturns | js/main.js:583-592 | Once per media of the project (or per flat entry), next returns to the starting index without leaving the project |
| MediaPopup.PrevUndoesNext | js/main.js:583-603 | Previous undoes next and next undoes previous, in both modes |
| DemoTour.NextPair | js/main.js:891-913 | On all-non-empty demos a next step from a valid pair gives a valid pair |
| DemoTour.PrevPair | js/main.js:867-888 | On all-non-empty demos a previous step from a valid pair gives a valid pair |
| DemoTour.StepsAreInverse | js/main.js:867-913 | prev after next and next after prev are the identity on valid pairs |
| DemoTour.NextAdvancesRank | js/main.js:891-913 | Each next step moves one place along the tour through all demos' media, wrapping from the last place to the first |
| DemoTour.NextN | js/main.js:891-913 | k next steps keep every intermediate pair valid and move k places modulo the total media count |
| DemoTour.FullTourReturns | js/main.js:891-913 | Stepping next (total media count) times returns to the starting pair |
| DemoTour.TourReachesEveryPair | js/main.js:891-913 | Every valid pair is reached from any valid pair in fewer than (total media count) next steps |
| DemoPopup.Init | js/main.js:829-837 | Before any demo is opened no pair is stored and the state satisfies the invariant |
| DemoPopup.Stored | js/main.js:895-896 | An unset attribute reads as 0, and a stored pair reads back as stored |
| DemoPopup.DisplayDemoMedia | js/main.js:969-1032 | Wraps the demo index first, then the media index against that demo. It stores only in-bounds pairs and stores a valid pair as given, and with an empty resolved demo it changes nothing |
| DemoPopup.OpenDemoPopup | js/main.js:951-967 | A no-op for a demo without media. Otherwise it stores (demo, 0), shows its first media and makes the popup visible |
| DemoPopup.ClosePopup | js/main.js:839-847 | Hides the popup, stops a running timer and keeps the stored pair |
| DemoPopup.ClosedPopupIgnoresKeys | js/main.js:839-863 | A closed popup keeps the invariant and ignores every key (both keyboard guards, lines 860-863 and 917-918, test for a hidden element), closing twice is closing once, and the stored pair survives the close |
| DemoPopup.OnNext | js/main.js:891-913 | Throws iff the demo list is empty. On all-non-empty demos it stores the next pair of the tour, and the invariant is kept |
| DemoPopup.OnPrev | js/main.js:867-888 | Throws iff the demo list is empty. On all-non-empty demos it stores the previous pair of the tour, and the invariant is kept |
| DemoPopup.OnKeydown | js/main.js:860-948 | A popup hidden inline ignores every key. On a popup not hidden: Escape closes it; with the demo list defined, ArrowRight is exactly the next button and ArrowLeft exactly the previous button, throwing included; other keys, and arrows without the list, change nothing. The invariant is kept |
| DemoPopup.DemoKeysLiveBeforeOpen | js/main.js:860-920 | Both demo guards test the same thing, and ArrowRight moves the cursor of a popup that was never opened |
| DemoPopup.EmptyDemoListThrows | js/main.js:917-947 | With an empty demo list both arrow keys throw on a popup not hidden inline |
| DemoPopup.NextPresses | js/main.js:891-913 | k next presses keep the invariant and leave the stored pair k steps along the tour |
| DemoPopup.DemoFullTour | js/main.js:891-913 | (total media count) presses bring the stored pair back, and every valid pair is reached on the way |
| DemoPopup.PrevUndoesNext | js/main.js:867-913 | The previous button undoes the next button and vice versa |
| DemoPopup.DisplayWrapsWithinDemo | js/main.js:983-988 | One past a demo's last media resolves to that demo's first media, and -1 to its last; there is no carry into the next demo |
| Page.Load | js/main.js:1-13 | After loading, the gallery list is exactly the list scraped from the showcase markup, no popup is open, no pair is stored, scrolling is on, and both invariants hold |
| Page.OpenGallery | js/main.js:524-532 | Scrolling is switched off exactly when the gallery opens; the demo popup is untouched |
| Page.CloseGallery | js/main.js:534-538 | Closing the gallery switches scrolling back on whatever the demo popup shows |
| Page.OpenAlbum | js/main.js:738-755 | Scrolling is switched off exactly when the album opens, with `isOpen` unchanged |
| Page.OpenDemo | js/main.js:951-967 | Scrolling is switched off exactly when the demo popup opens |
| Page.CloseDemo | js/main.js:839-842 | Closing the demo popup switches scrolling back on whatever the media popup shows |
| Page.OnKeydown | js/main.js:615-621 | Together with the demo listeners (lines 860-863 and 917-948), registered after it: each popup steps as its own listeners say, a throwing arrow listener leaves the demo popup as it was, only Escape touches scrolling, and after Escape scrolling stays off iff it was off and neither popup's Escape guard passes |
| Page.EscapeUnlocksUnderAlbum | js/main.js:860-863 | The album is opened at lines 738-755 without `isOpen`, so the media listener ignores Escape. With the demo element not hidden inline, Escape on a freshly opened album leaves the album visible but switches page scrolling back on |
| Page.HiddenDemoKeepsAlbumLocked | js/main.js:860-863 | With the demo element hidden inline, neither demo listener passes its guard (here and at lines 917-918), so no key changes anything on a freshly opened album: it stays visible with scrolling off |
| Page.ClosedDemoKeepsAlbumLocked | js/main.js:839-842 | The demo close writes display 'none'. So after a demo has been opened and closed, Escape on an album opened from a card passes neither Escape guard: the album stays visible and scrolling stays off, whatever the markup's display |
| Page.EscapeSilencesUnopenedDemo | js/main.js:860-863 | On a loaded page whose demo element is not hidden inline, the first Escape closes the never-opened demo popup, and it sets display 'none'. ArrowRight afterwards stores no pair |
| Page.EscapeClosesGallery | js/main.js:615-618 | With the flat gallery open, Escape closes it and switches scrolling back on |

## Left out

- DOM querying, element lookups that may fail (`!mediaPopup`, `!demoPopup`), click handler attachment and card templating (js/main.js:512-522, 626-736, 1034-1089): the model assumes the popup elements exist. A click is the call of the operation it triggers.
- The descriptive text of an opened album or demo is not modelled: year, contribution(s), description and the play/WIP button (js/main.js:757-783, 1000-1002). Only the caption (title) line is.
- The info element's `display: flex` in the album (js/main.js:806, 820) is not modelled: it is presentation only.
- Video playback is not modelled: `play`, `pause`, `currentTime`, `load` and the swallowed promise rejections are asynchronous browser calls. A video is represented only by its visible slot and source.
- Timers are left out: the carousel's 5-second auto-advance, the thumbnail rotation, and the popups' auto-rotation. No code in the script starts a popup rotation timer. Only what close and open do to a handle is modelled.
- Theme, music, local storage, the loader, the marquee, the cursor trail, reveal animations and scroll effects are outside the navigation logic.
- Touch-swipe thresholds and key capture: a swipe or key is treated as an event that calls next, previous or close.
- The project index and the project passed to `openProjectMediaPopup` are assumed to agree: the showcase grid is the only caller and passes `showcaseProjects[i]` with `i`. The same holds for the demo and index passed to `openDemoPopup`. Both operations therefore take the list and an in-range index.
- A media list that is absent on a project or demo record is modelled as an empty list. Where the script reads `.length` of an absent list it would throw; the model does not represent that case.
- The popups' own records carry no scrolling flag: `document.body.style.overflow` is page-wide, so only `Page` keeps it. Its value before the first write (the empty string) and 'auto' are both "scrolling on".
- `demoPopup.allDemos` and `demoPopup.currentDemoIndex` are written by `openDemoPopup` but never read, so they are not modelled.
