# Portfolio gallery, carousel and scroll indicators in Dafny

This project models the parts of a React portfolio site that keep state and
compute indices, and proves what they promise.

- **Animated folder and image lightbox** (`components/ui/animated-folder.tsx`).
  The folder fans out up to five preview cards on hover. A click on a card
  selects its project, hides the card and opens a lightbox from the card's
  position. The lightbox animates in through the phases initial, animating
  and complete. It navigates with arrow buttons, dots and the keyboard, with
  no wrap-around. It closes in two steps: the selection is cleared at once,
  and a 500 ms timer later stops rendering and shows the hidden card again.
  - `GalleryModel` describes the two components as values. React's effects
    are modelled as React runs them: each effect remembers the dependencies
    it last ran with. A commit runs the layout effect and then the two index
    effects, in declaration order, each only if its dependencies changed.
    Every user or timer event is a handler followed by the re-render and the
    commits that follow it.
  - `Gallery` turns each component into a class. Each handler, effect and
    timer callback is a method, proved to change the fields exactly as the
    value model says. Each event method is proved to keep the gallery valid.
  - `CardFan` is the fan geometry of the preview cards, over reals.
- **Projects carousel** (`components/ui/projects-section.tsx`). Previous and
  next step cyclically through the four projects with JavaScript's `%`. An
  indicator per project jumps straight to it.
- **Scroll indicators** (`components/ui/scroll-progress.tsx`,
  `components/ui/scroll-progress-bar.tsx`). Both compute the active section
  from the scroll progress p as `min(floor(p * n), n - 1)` (`SectionIndex`).
  Each component is a class whose scroll callback overwrites `activeIndex`.
  `Markers` is the shared test by which an indicator is drawn as active.

## Where the code departs from its intended behaviour

The model follows the code in each case below.

- **The sliding guard never engages.** A navigation is meant to set
  `isSliding`, and a 400 ms timer is meant to commit the new index later.
  A second request while sliding is meant to be dropped: opened on item 2
  of 5, two quick presses of ArrowRight should end on item 3. In the code,
  a change of `currentIndex` runs two effects in the same commit. The first
  one (lines 115-124) sets `isSliding` and starts the timer. The second one
  (lines 126-131) immediately sets `internalIndex` and clears `isSliding`.
  The next commit runs the first effect's cleanup, which cancels the timer.
  - `SlideGuardNeverEngages` proves that `isSliding` is false and no 400 ms
    timer is pending at every stable state.
  - `RapidNextsBothHonoured` and `Gallery.RapidDoubleArrowRight` prove that
    both presses take effect and the lightbox ends on item 4.
- **Keys work in every phase.** Navigation is meant to be honoured only
  once the lightbox is animating or complete. Only the arrow buttons are
  gated, by their pointer events and `disabled` attribute. The keyboard
  listener checks only `isOpen`. So ArrowLeft and ArrowRight navigate in
  any phase, even while the lightbox is not rendered
  (`KeysNavigateInAnyPhase`).
- **A close timer is never cancelled.** Reopening while closing is not
  meant to happen. In the code, each call of `handleClose` schedules its
  own 500 ms callback, and nothing cancels it. After a double click on the
  backdrop, the second callback can fire after a card has been reopened.
  It then stops the new lightbox rendering and clears `hiddenCardId` while
  the project stays selected (`LateCloseTimerHidesReopenedLightbox`). The
  gallery invariant therefore says only that a hidden card, if any, is the
  selected one.
- **A dot still works while the lightbox fades out.** Closing is meant to
  end with nothing selected. The dot panel (lines 315-321) only turns
  transparent while `isClosing`; it does not stop taking clicks. A dot
  other than the current one, clicked during the 500 ms fade-out, selects
  its project again. The pending callback then stops the lightbox
  rendering, so a project stays selected and nothing shows it
  (`DotDuringFadeOutLeavesSelectionUnshown`).
- **No lower clamp in the scroll indices.** Neither scroll component
  clamps below: a negative progress selects a negative index
  (`NegativeProgressEscapesRange`). The range guarantee holds for progress
  values in [0, 1].

## Model

| member | source | states |
|---|---|---|
| Markers.IsActive | components/ui/projects-section.tsx:84 | definition of the `index === current` test; specified by `ActiveMarkers` and `ExactlyOneActive` |
| Markers.ActiveMarkers | components/ui/projects-section.tsx:84-87 | the indicators drawn as active are exactly {current} when current is a valid index, and none otherwise |
| Markers.ExactlyOneActive | components/ui/projects-section.tsx:80-91 | for a valid current index exactly one indicator is active, and indicator k is active iff k is the current index |
| CardFan.Factor | components/ui/animated-folder.tsx:31-32 | definition of the fan factor; specified by `FactorOfLoneCard`, `FactorBounded`, `FactorAtEnds`, `FactorMirror` and `FactorIncreasing` |
| CardFan.Abs | components/ui/animated-folder.tsx:36 | `Math.abs`: non-negative and equal to x or -x |
| CardFan.Pose | components/ui/animated-folder.tsx:31-36 | every card's rotation lies in [-25, 25] degrees, its x-offset in [-85, 85], its lift in [0, 12], and its delay is a non-negative multiple of 50 ms |
| CardFan.FactorOfLoneCard | components/ui/animated-folder.tsx:32 | with at most one card the fan factor is 0 |
| CardFan.FactorBounded | components/ui/animated-folder.tsx:31-32 | every card's fan factor lies in [-1, 1] |
| CardFan.FactorAtEnds | components/ui/animated-folder.tsx:31-32 | with two or more cards the first card's factor is -1 and the last card's is 1 |
| CardFan.FactorMirror | components/ui/animated-folder.tsx:31-32 | card i and card n-1-i have opposite factors |
| CardFan.FactorIncreasing | components/ui/animated-folder.tsx:31-32 | a later card in the list has a strictly larger factor |
| CardFan.PoseMirror | components/ui/animated-folder.tsx:31-36 | mirrored cards have opposite rotation and x-offset and equal lift |
| CardFan.DelayStaggered | components/ui/animated-folder.tsx:399 | each card's transition starts exactly 50 ms after the previous card's |
| ProjectsCarousel.JsRem | components/ui/projects-section.tsx:59 | JavaScript `%` agrees with the mathematical remainder for a non-negative dividend and lies in (-n, 0] for a negative one |
| ProjectsCarousel.NextIndex | components/ui/projects-section.tsx:58-60 | from a valid index next stays in [0, n), moves one on below the last project, and wraps from n-1 to 0 |
| ProjectsCarousel.PreviousIndex | components/ui/projects-section.tsx:62-64 | from a valid index previous stays in [0, n), moves one back above 0, and wraps from 0 to n-1 |
| ProjectsCarousel.NextThenPrevious | components/ui/projects-section.tsx:58-64 | next then previous, and previous then next, return to the starting index |
| ProjectsCarousel.AdvanceCompose | components/ui/projects-section.tsx:58-60 | a presses of next followed by b presses equal a + b presses |
| ProjectsCarousel.AdvanceWithoutWrap | components/ui/projects-section.tsx:58-60 | k presses of next that do not pass the last project move exactly k projects on |
| ProjectsCarousel.FullRoundReturns | components/ui/projects-section.tsx:58-60 | n presses of next return to the starting project |
| ProjectsCarousel.FourNextsReturn | components/ui/projects-section.tsx:15-48 | on the four-project page, four presses of next return to the starting project |
| ProjectsCarousel.ProjectsSection.constructor | components/ui/projects-section.tsx:51 | the carousel starts on project 0 |
| ProjectsCarousel.ProjectsSection.GoToNext | components/ui/projects-section.tsx:58-60 | the index becomes the next index of the old one and stays in range |
| ProjectsCarousel.ProjectsSection.GoToPrevious | components/ui/projects-section.tsx:62-64 | the index becomes the previous index of the old one and stays in range |
| ProjectsCarousel.ProjectsSection.IndicatorActive | components/ui/projects-section.tsx:84 | definition of the highlight test; specified by `SelectIndicator` and `ActiveIndicators` |
| ProjectsCarousel.ProjectsSection.SelectIndicator | components/ui/projects-section.tsx:83-87 | clicking indicator k shows project k, and exactly indicator k is then drawn as active |
| ProjectsCarousel.ProjectsSection.ActiveIndicators | components/ui/projects-section.tsx:84-87 | the active indicators are exactly the current project's, one of them |
| SectionIndex.ActiveSectionIndex | components/ui/scroll-progress.tsx:20-23 | the index is at most n-1 and at most floor(p * n) |
| SectionIndex.IndexInRange | components/ui/scroll-progress.tsx:20-23 | for p in [0, 1] and n >= 1 the index names a section in [0, n) |
| SectionIndex.EndsOfPage | components/ui/scroll-progress.tsx:20-23 | p = 0 selects section 0 and p = 1 selects the last section |
| SectionIndex.Monotone | components/ui/scroll-progress.tsx:21 | a larger progress never selects an earlier section |
| SectionIndex.BandSelectsSection | components/ui/scroll-progress.tsx:21 | every progress in the band [k/n, (k+1)/n) selects section k, for each section other than the last |
| SectionIndex.SelectedSectionLiesInBand | components/ui/scroll-progress.tsx:21 | conversely, a progress that selects section k, other than the last, lies in the band [k/n, (k+1)/n) |
| SectionIndex.LastSectionFromItsBand | components/ui/scroll-progress.tsx:20-23 | every progress from (n-1)/n upwards selects the last section |
| SectionIndex.NegativeProgressEscapesRange | components/ui/scroll-progress-bar.tsx:14-15 | without a lower clamp, a negative progress gives a negative index |
| ScrollProgress.ScrollProgress.constructor | components/ui/scroll-progress.tsx:16 | the active index starts at 0 |
| ScrollProgress.ScrollProgress.WithDefaults | components/ui/scroll-progress.tsx:8 | without a sections prop there are three sections and the active index starts at 0 |
| ScrollProgress.ScrollProgress.Highlighted | components/ui/scroll-progress.tsx:47-58 | definition of the highlight test of a label and its dot; specified by `OnScrollChange` |
| ScrollProgress.ScrollProgress.OnScrollChange | components/ui/scroll-progress.tsx:18-26 | the active index becomes the section of the new progress, lies in range for a progress in [0, 1], and exactly its label is highlighted |
| ScrollProgressBar.ScrollProgressBar.constructor | components/ui/scroll-progress-bar.tsx:10 | the active index starts at 0 |
| ScrollProgressBar.ScrollProgressBar.Highlighted | components/ui/scroll-progress-bar.tsx:42-52 | definition of the highlight test of a marker; specified by `OnScrollChange` |
| ScrollProgressBar.ScrollProgressBar.OnScrollChange | components/ui/scroll-progress-bar.tsx:12-19 | the active index becomes the section of the new progress, lies in range for a progress in [0, 1], and exactly its marker is highlighted |
| GalleryModel.PreviewCount | components/ui/animated-folder.tsx:364 | the number of preview cards is 5, or the number of projects when there are fewer |
| GalleryModel.SettleClosedForm | components/ui/animated-folder.tsx:115-184 | from a stable lightbox, two commits reach a stable state whatever the new props: the opening effect has run if its inputs changed, the open lightbox shows `currentIndex`, and no slide is in progress |
| GalleryModel.NextRequest | components/ui/animated-folder.tsx:133-136 | next asks for nothing exactly when on the last project or sliding, and otherwise for exactly the following index, which is in range |
| GalleryModel.PrevRequest | components/ui/animated-folder.tsx:138-141 | previous asks for nothing exactly when on the first project or sliding, and otherwise for exactly the preceding index |
| GalleryModel.DotRequest | components/ui/animated-folder.tsx:186-189 | a dot asks for nothing exactly when sliding or it is the current dot, and otherwise for its own index |
| GalleryModel.Step | components/ui/animated-folder.tsx:224-399 | definition of what each event does: hover (386-387), a card click (399), the arrow buttons (252, 267), a dot (333), the backdrop or close button (224, 238), a key (155-160) and each timer or frame callback, each followed by the re-render; specified by `StepPreservesValid`, `HoverChangesOnlyHover`, `ClickCardOpens`, `FrameAnimates`, `OpenTimerCompletes` and `CloseTimerEndsClose` |
| GalleryModel.Navigate | components/ui/animated-folder.tsx:375 | definition of a lightbox request reaching `handleNavigate`, followed by the re-render; specified by `NavigateRerenders` and `NavigatePreservesValid` |
| GalleryModel.Close | components/ui/animated-folder.tsx:143-145 | definition of `handleClose` with its call of `onClose` (line 373), followed by the re-render; specified by `CloseSequence` |
| GalleryModel.Rerender | components/ui/animated-folder.tsx:115-184 | definition of a folder state change followed by the lightbox's commits; specified by `RerenderSettles` |
| GalleryModel.IdOrNull | components/ui/animated-folder.tsx:375 | definition of `projects[newIndex]?.id \|\| null`; specified by `NextMovesOne`, `PrevMovesOne` and `HiddenCardIsSelected` |
| GalleryModel.MountedLightbox | components/ui/animated-folder.tsx:103-107 | definition of the lightbox's `useState` initials with its first props; specified by `InitialValid` |
| GalleryModel.InitialFolder | components/ui/animated-folder.tsx:357-362 | definition of the folder's `useState` initials; specified by `InitialValid` |
| GalleryModel.PropsOf | components/ui/animated-folder.tsx:413 | definition of the lightbox's props: `currentIndex = selectedIndex ?? 0`, `isOpen = selectedIndex !== null`; used by `OpenShowsSelection` |
| GalleryModel.OpenEffect | components/ui/animated-folder.tsx:169-184 | definition of the layout effect; specified by `RenderStartsOnlyWhenOpenWithRect`, `ClickCardOpens` and `CloseSequence` |
| GalleryModel.SlideEffect | components/ui/animated-folder.tsx:115-124 | definition of the slide effect; specified by `SettleClosedForm` and `SlideGuardNeverEngages` |
| GalleryModel.SyncEffect | components/ui/animated-folder.tsx:126-131 | definition of the index-sync effect; specified by `SettleClosedForm` and `NavigateRerenders` |
| GalleryModel.Commit | components/ui/animated-folder.tsx:115-184 | definition of one commit of the three effects; specified by `SettleClosedForm` |
| GalleryModel.Settle | components/ui/animated-folder.tsx:115-184 | definition of the commits after a re-render; specified by `SettleClosedForm` |
| GalleryModel.ProjectClick | components/ui/animated-folder.tsx:366-371 | definition of `handleProjectClick`; specified by `ClickCardOpens` |
| GalleryModel.NavigateTo | components/ui/animated-folder.tsx:375 | definition of `handleNavigate`; specified by `NextMovesOne`, `PrevMovesOne` and `DotShowsProject` |
| GalleryModel.CloseLightbox | components/ui/animated-folder.tsx:373 | definition of `handleCloseLightbox`; specified by `CloseSequence` |
| GalleryModel.CloseComplete | components/ui/animated-folder.tsx:374 | definition of `handleCloseComplete`; specified by `CloseTimerEndsClose` |
| GalleryModel.BeginClose | components/ui/animated-folder.tsx:143-146 | definition of `handleClose` up to `onClose`; specified by `CloseSequence` |
| GalleryModel.CloseTimerFires | components/ui/animated-folder.tsx:146-151 | definition of the 500 ms callback; specified by `CloseTimerEndsClose` |
| GalleryModel.FrameFires | components/ui/animated-folder.tsx:174-178 | definition of the frame callback; specified by `FrameAnimates` |
| GalleryModel.CompleteTimerFires | components/ui/animated-folder.tsx:179-181 | definition of the 700 ms callback; specified by `OpenTimerCompletes` |
| GalleryModel.SlideTimerFires | components/ui/animated-folder.tsx:118-121 | definition of the 400 ms callback; `SlideGuardNeverEngages` proves it never has a pending timer to run |
| GalleryModel.Enabled | components/ui/animated-folder.tsx:222-276 | definition of which event can occur: the first five cards, and entering the folder, only while no lightbox renders, because its full-screen backdrop covers the folder even while fading out; backdrop, close button and dots while rendered; an arrow button only in the complete phase, not closing, not sliding and with a project in its direction; pending callbacks only; keys always. Used by `KeysNavigateInAnyPhase`, `BackdropStaysUntilCloseTimer` and `HoverChangesOnlyHover` |
| GalleryModel.KeyStep | components/ui/animated-folder.tsx:155-160 | definition of the keydown listener; specified by `KeysIgnoredWhileClosed`, `KeysNavigateInAnyPhase`, `NextMovesOne`, `PrevMovesOne` and `CloseSequence` |
| GalleryModel.Renders | components/ui/animated-folder.tsx:191 | definition of the render guard `shouldRender && projects[internalIndex]`; specified by `RunPreservesValid` |
| GalleryModel.CardHidden | components/ui/animated-folder.tsx:399 | definition of `hiddenCardId === project.id`; specified by `HiddenCardIsSelected` |
| GalleryProperties.InitialValid | components/ui/animated-folder.tsx:357-362 | the page starts valid, with nothing selected and the lightbox not rendered |
| GalleryProperties.RerenderSettles | components/ui/animated-folder.tsx:115-131 | any handler's re-render ends with the index effects settled for the new props |
| GalleryProperties.SlideGuardNeverEngages | components/ui/animated-folder.tsx:115-131 | at every valid state nothing is sliding and no 400 ms timer is pending |
| GalleryProperties.StepPreservesValid | components/ui/animated-folder.tsx:103-191 | every possible event keeps the selection and `internalIndex` in range, the hidden card the selected one, and the effects settled |
| GalleryProperties.NavigatePreservesValid | components/ui/animated-folder.tsx:375 | an in-range navigation request keeps the gallery valid |
| GalleryProperties.RunPreservesValid | components/ui/animated-folder.tsx:191 | after any run of events the gallery is valid, and whenever `shouldRender` holds `projects[internalIndex]` exists |
| GalleryProperties.OpenShowsSelection | components/ui/animated-folder.tsx:413 | while a project is selected the lightbox shows exactly that project |
| GalleryProperties.ClickCardOpens | components/ui/animated-folder.tsx:366-371 | while no lightbox covers the folder, clicking mounted card i selects and hides project i, measures a new rectangle, and starts the opening animation on project i from the initial pose |
| GalleryProperties.OpenWithoutRectRendersNothing | components/ui/animated-folder.tsx:169-170 | a card clicked before it is mounted opens the selection but does not make a hidden lightbox render |
| GalleryProperties.RenderStartsOnlyWhenOpenWithRect | components/ui/animated-folder.tsx:169-184 | the lightbox starts rendering only when it is open with a rectangle, and then in the initial phase and not closing |
| GalleryProperties.NavigateRerenders | components/ui/animated-folder.tsx:115-141 | a navigation request moves the open lightbox to the requested index at once and changes nothing else of the lightbox; no request changes nothing |
| GalleryProperties.FrameAnimates | components/ui/animated-folder.tsx:174-178 | the frame after opening switches to the animating phase and changes nothing else |
| GalleryProperties.OpenTimerCompletes | components/ui/animated-folder.tsx:179-181 | the 700 ms timer switches to the complete phase and changes nothing else |
| GalleryProperties.NextMovesOne | components/ui/animated-folder.tsx:133-136 | ArrowRight moves the open lightbox and the selection exactly one project on, and on the last project changes nothing |
| GalleryProperties.PrevMovesOne | components/ui/animated-folder.tsx:138-141 | ArrowLeft moves the open lightbox and the selection exactly one project back, and on the first project changes nothing |
| GalleryProperties.DotShowsProject | components/ui/animated-folder.tsx:186-189 | whenever the lightbox renders, fading out included, a dot click shows its project and selects it again; the current project's dot changes nothing |
| GalleryProperties.DotDuringFadeOutLeavesSelectionUnshown | components/ui/animated-folder.tsx:143-151 | closing, then clicking another dot before the 500 ms callback, ends with that project selected, the lightbox not rendered and no card hidden |
| GalleryProperties.RapidNextsBothHonoured | components/ui/animated-folder.tsx:115-131 | two ArrowRight presses in a row move two projects on |
| GalleryProperties.NextThenPrevReturns | components/ui/animated-folder.tsx:133-141 | ArrowRight then ArrowLeft returns to the same project and selection, with no slide in progress |
| GalleryProperties.KeysIgnoredWhileClosed | components/ui/animated-folder.tsx:156 | while nothing is selected, any key leaves the gallery unchanged |
| GalleryProperties.KeysNavigateInAnyPhase | components/ui/animated-folder.tsx:155-160 | while the arrow buttons take no clicks (lightbox not rendered, or not yet complete), ArrowRight and ArrowLeft still move the open lightbox one project on or back |
| GalleryProperties.OnlyCloseTimerUncoversFolder | components/ui/animated-folder.tsx:146-151 | while the lightbox renders, an event stops it rendering exactly when it is the 500 ms close callback; closing, navigating, frames and keys keep it |
| GalleryProperties.NavigateKeepsRendering | components/ui/animated-folder.tsx:375 | a navigation request, answered or dropped, never stops a rendering lightbox |
| GalleryProperties.BackdropStaysUntilCloseTimer | components/ui/animated-folder.tsx:222-224 | along any run without a 500 ms callback, a rendering lightbox keeps rendering, so no preview card becomes clickable under its backdrop |
| GalleryProperties.HoverChangesOnlyHover | components/ui/animated-folder.tsx:386-387 | the folder can be entered exactly when no lightbox renders; entering then, or leaving from any valid state, sets `isHovered` and changes nothing else, in the folder or the lightbox |
| GalleryProperties.CloseSequence | components/ui/animated-folder.tsx:143-151 | closing clears the selection and rectangle at once, cancels the 700 ms timer and keeps the project while fading; the 500 ms timer then stops rendering, resets the phase and shows the card again |
| GalleryProperties.CloseTimerEndsClose | components/ui/animated-folder.tsx:146-151 | from any valid state, a pending 500 ms callback stops rendering and closing, resets the phase, shows every card again, keeps the selection, and consumes one callback |
| GalleryProperties.LateCloseTimerHidesReopenedLightbox | components/ui/animated-folder.tsx:146-151 | after two close clicks, a reopened lightbox is stopped from rendering and its card shown again by the second 500 ms callback while the project stays selected |
| GalleryProperties.HiddenCardIsSelected | components/ui/animated-folder.tsx:399 | with distinct ids, while a project is selected and a card is hidden, card k is hidden iff k is selected |
| Gallery.ImageLightbox.constructor | components/ui/animated-folder.tsx:103-107 | the lightbox mounts on index 0, not rendering, in the initial phase, with nothing pending |
| Gallery.ImageLightbox.NavigateNext | components/ui/animated-folder.tsx:133-136 | returns the request of `navigateNext` |
| Gallery.ImageLightbox.NavigatePrev | components/ui/animated-folder.tsx:138-141 | returns the request of `navigatePrev` |
| Gallery.ImageLightbox.HandleDotClick | components/ui/animated-folder.tsx:186-189 | returns the request of `handleDotClick` |
| Gallery.ImageLightbox.HandleClose | components/ui/animated-folder.tsx:143-146 | starts closing and schedules one more 500 ms callback |
| Gallery.ImageLightbox.CloseTimerCallback | components/ui/animated-folder.tsx:146-151 | stops closing and rendering, resets the phase, and consumes one pending callback |
| Gallery.ImageLightbox.FrameCallback | components/ui/animated-folder.tsx:174-178 | switches to the animating phase and consumes the frame |
| Gallery.ImageLightbox.CompleteTimerCallback | components/ui/animated-folder.tsx:179-181 | switches to the complete phase and consumes the timer |
| Gallery.ImageLightbox.SlideTimerCallback | components/ui/animated-folder.tsx:118-121 | commits the index the slide was started for and ends the slide |
| Gallery.ImageLightbox.RunOpenEffect | components/ui/animated-folder.tsx:169-184 | cancels the 700 ms timer and, when open with a rectangle, renders from the initial pose and schedules a frame and the 700 ms timer |
| Gallery.ImageLightbox.RunSlideEffect | components/ui/animated-folder.tsx:115-124 | cancels the 400 ms timer and, when open on another index and not sliding, starts a slide towards `currentIndex` |
| Gallery.ImageLightbox.RunSyncEffect | components/ui/animated-folder.tsx:126-131 | when open, shows `currentIndex` at once and ends any slide |
| Gallery.AnimatedFolder.constructor | components/ui/animated-folder.tsx:357-362 | the folder starts with nothing selected or hidden, not hovered, its lightbox freshly mounted, and valid |
| Gallery.AnimatedFolder.HandleProjectClick | components/ui/animated-folder.tsx:366-371 | measures the card when mounted, selects the project and hides its card |
| Gallery.AnimatedFolder.HandleCloseLightbox | components/ui/animated-folder.tsx:373 | clears the selection and the rectangle |
| Gallery.AnimatedFolder.HandleCloseComplete | components/ui/animated-folder.tsx:374 | shows the hidden card again |
| Gallery.AnimatedFolder.HandleNavigate | components/ui/animated-folder.tsx:375 | selects the new index and hides its card, or none for an empty id |
| Gallery.AnimatedFolder.CommitEffects | components/ui/animated-folder.tsx:115-184 | runs one commit of the lightbox's three effects for the folder's current props |
| Gallery.AnimatedFolder.RenderAndCommit | components/ui/animated-folder.tsx:115-184 | runs the commits that follow a re-render until the lightbox is stable |
| Gallery.AnimatedFolder.NavigateAndRender | components/ui/animated-folder.tsx:375 | passes a request to `handleNavigate` and re-renders; no request changes nothing |
| Gallery.AnimatedFolder.CloseAndRender | components/ui/animated-folder.tsx:143-145 | runs `handleClose` and `onClose` and re-renders |
| Gallery.AnimatedFolder.OnMouseEnter | components/ui/animated-folder.tsx:386 | hovering keeps the gallery valid and takes the step that `HoverChangesOnlyHover` proves changes only `isHovered` |
| Gallery.AnimatedFolder.OnMouseLeave | components/ui/animated-folder.tsx:387 | leaving keeps the gallery valid and takes the step that `HoverChangesOnlyHover` proves changes only `isHovered` |
| Gallery.AnimatedFolder.OnCardClick | components/ui/animated-folder.tsx:399 | a click on a preview card, possible only while no lightbox covers the folder, keeps the gallery valid and opens that project |
| Gallery.AnimatedFolder.OnNextClick | components/ui/animated-folder.tsx:266-268 | the next button keeps the gallery valid and navigates as `navigateNext` asks |
| Gallery.AnimatedFolder.OnPrevClick | components/ui/animated-folder.tsx:251-253 | the previous button keeps the gallery valid and navigates as `navigatePrev` asks |
| Gallery.AnimatedFolder.OnDotClick | components/ui/animated-folder.tsx:330-335 | a dot keeps the gallery valid and navigates as `handleDotClick` asks |
| Gallery.AnimatedFolder.OnCloseClick | components/ui/animated-folder.tsx:224-238 | the backdrop or close button keeps the gallery valid and closes |
| Gallery.AnimatedFolder.OnKeyDown | components/ui/animated-folder.tsx:155-160 | a key keeps the gallery valid and acts as the keydown listener does |
| Gallery.AnimatedFolder.OnAnimationFrame | components/ui/animated-folder.tsx:174-178 | the frame keeps the gallery valid and starts the animating phase |
| Gallery.AnimatedFolder.OnOpenTimer | components/ui/animated-folder.tsx:179-181 | the 700 ms timer keeps the gallery valid and completes the opening |
| Gallery.AnimatedFolder.OnCloseTimer | components/ui/animated-folder.tsx:146-151 | the 500 ms timer keeps the gallery valid and takes the step that `CloseTimerEndsClose` proves ends the close and shows the hidden card |
| Gallery.RapidDoubleArrowRight | components/ui/animated-folder.tsx:115-131 | opened on item 2 of 5, two ArrowRight presses end on item 4 |

## Left out

- Geometry: `getBoundingClientRect` and `getInitialStyles`/`getFinalStyles` (components/ui/animated-folder.tsx:193-218) read the window size and build CSS. A measured rectangle is modelled only by which measurement produced it, because React compares it by identity.
- Durations: the 400, 500 and 700 ms timers and the animation frames are explicit events that fire in any order, without their delays.
- Interleaving within a re-render: the model assumes that no event occurs between a handler's state change and the commits that follow it. React guarantees this for discrete user events. For the updates of the 500 ms and 700 ms timers and of the animation frame, which React renders in a scheduled task, it is an assumption of the model.
- Hover while the lightbox renders: leaving the folder is allowed in every state, because the browser reports the pointer leaving when the backdrop comes over the folder. Exactly when it reports that is not modelled.
- The nested `requestAnimationFrame` (components/ui/animated-folder.tsx:174-178) is one frame event.
- The 400 ms slide callback has no folder-level event. `ImageLightbox.SlideTimerCallback` models it, but `SlideGuardNeverEngages` proves that it is always cancelled before it can fire.
- Adding and removing the keydown listener and writing `document.body.style.overflow` (components/ui/animated-folder.tsx:161-167) are global side effects. The listener is modelled as always attached.
- `window.scrollTo` when the carousel index changes (components/ui/projects-section.tsx:54-56) is a side effect.
- The image `onError` placeholder (components/ui/animated-folder.tsx:69-71, 307) is a DOM mutation.
- Everything framer-motion or CSS transitions animate is presentation only: springs, `useScroll`, hover transforms and opacities. `isHovered` is kept as state only.
- Numbers: the scroll progress is a real, not a double. Indices are unbounded integers.
- App.tsx and the other component files are not part of this model: they are page composition, floating-point visuals or static markup.
- Unmounted cards: a card click carries whether the card's element ref is set. A preview card that can be clicked is always mounted, because its ref callback (components/ui/animated-folder.tsx:399) sets the ref on mount. The `false` case models only the defensive null check at line 368, and `OpenWithoutRectRendersNothing` is about that path alone.
- GalleryModel.Valid: does not say that the selected project's card is always hidden, only that no other card is. The code breaks the stronger claim in two ways. A late 500 ms callback clears `hiddenCardId` while a project is selected. Navigating to a project with an empty id hides nothing.
- GalleryProperties.HiddenCardIsSelected: requires that some card is hidden, for the reason given on the previous line.
