/** What the folder and lightbox promise, proved over the value model. */
module GalleryProperties {
  import opened Options
  import opened GalleryModel

  /** The page starts in a valid state: nothing selected, the lightbox mounted and hidden. */
  lemma InitialValid(projects: seq<Project>)
    ensures Valid(InitialGallery(), projects)
    ensures !InitialGallery().lightbox.shouldRender && !PropsOf(InitialGallery().folder).isOpen
  {
  }

  /** Handlers that leave the index state alone keep the lightbox quiescent for the old props, so the re-render settles. */
  lemma RerenderSettles(g: GalleryState, f: FolderState, lb: LightboxState)
    requires Quiescent(lb, PropsOf(g.folder))
    ensures Rerender(f, lb).lightbox == Synced(AfterOpenEffect(lb, PropsOf(f)), PropsOf(f))
    ensures Quiescent(Rerender(f, lb).lightbox, PropsOf(f))
  {
    SettleClosedForm(lb, PropsOf(g.folder), PropsOf(f));
  }

  /** The sliding flag is never set at a stable state, so no 400 ms timer is ever left to fire. */
  lemma SlideGuardNeverEngages(g: GalleryState, projects: seq<Project>)
    requires Valid(g, projects)
    ensures !g.lightbox.isSliding && g.lightbox.slideTimer.None?
  {
  }

  /** Every event keeps the gallery valid: indices in range, the selected card hidden, the effects settled. */
  lemma StepPreservesValid(g: GalleryState, projects: seq<Project>, e: Event)
    requires Valid(g, projects) && Enabled(g, projects, e)
    ensures Valid(Step(g, projects, e), projects)
  {
    var f, lb := g.folder, g.lightbox;
    match e
    case MouseEnter => RerenderSettles(g, f.(isHovered := true), lb);
    case MouseLeave => RerenderSettles(g, f.(isHovered := false), lb);
    case ClickCard(index, cardMounted) =>
      RerenderSettles(g, ProjectClick(f, projects, index, cardMounted), lb);
    case ClickNext => NavigatePreservesValid(g, projects, NextRequest(lb, |projects|));
    case ClickPrev => NavigatePreservesValid(g, projects, PrevRequest(lb));
    case ClickDot(dot) => NavigatePreservesValid(g, projects, DotRequest(lb, dot));
    case ClickClose => RerenderSettles(g, CloseLightbox(f), BeginClose(lb));
    case KeyDown(key) =>
      if PropsOf(f).isOpen {
        match key
        case Escape => RerenderSettles(g, CloseLightbox(f), BeginClose(lb));
        case ArrowRight => NavigatePreservesValid(g, projects, NextRequest(lb, |projects|));
        case ArrowLeft => NavigatePreservesValid(g, projects, PrevRequest(lb));
        case OtherKey =>
      }
    case FrameTick => RerenderSettles(g, f, FrameFires(lb));
    case OpenTimer => RerenderSettles(g, f, CompleteTimerFires(lb));
    case CloseTimer => RerenderSettles(g, CloseComplete(f), CloseTimerFires(lb));
  }

  lemma NavigatePreservesValid(g: GalleryState, projects: seq<Project>, request: Option<nat>)
    requires Valid(g, projects)
    requires request.Some? ==> request.value < |projects|
    ensures Valid(Navigate(g, projects, request), projects)
  {
    if request.Some? {
      RerenderSettles(g, NavigateTo(g.folder, projects, request.value), g.lightbox);
    }
  }

  /** Any run of events keeps the gallery valid, so the lightbox never renders without a current project. */
  lemma {:induction false} RunPreservesValid(g: GalleryState, projects: seq<Project>, events: seq<Event>)
    requires Valid(g, projects)
    ensures Valid(Run(g, projects, events), projects)
    ensures Run(g, projects, events).lightbox.shouldRender ==> Renders(Run(g, projects, events), projects)
    decreases |events|
  {
    if events != [] {
      var g' := if Enabled(g, projects, events[0]) then Step(g, projects, events[0]) else g;
      if Enabled(g, projects, events[0]) {
        StepPreservesValid(g, projects, events[0]);
      }
      RunPreservesValid(g', projects, events[1..]);
    }
  }

  /** An open lightbox shows the selected project. */
  lemma OpenShowsSelection(g: GalleryState, projects: seq<Project>)
    requires Valid(g, projects) && g.folder.selectedIndex.Some?
    ensures g.lightbox.internalIndex == g.folder.selectedIndex.value < |projects|
  {
  }

  // ----------------------------------------------------------- opening

  /**
   * Clicking a mounted card selects it, hides it, measures it, and (the new
   * measurement being a new rectangle) starts the opening animation from the
   * initial pose on the clicked project.
   */
  lemma ClickCardOpens(g: GalleryState, projects: seq<Project>, i: nat)
    requires Valid(g, projects) && i < PreviewCount(projects) && !Renders(g, projects)
    ensures var g' := Step(g, projects, ClickCard(i, true));
      && g'.folder.selectedIndex == Some(i)
      && g'.folder.hiddenCardId == Some(projects[i].id)
      && g'.folder.sourceRect == Some(Measured(g.folder.measurements))
      && g'.lightbox.shouldRender && g'.lightbox.animationPhase == Initial && !g'.lightbox.isClosing
      && g'.lightbox.internalIndex == i && !g'.lightbox.isSliding
      && g'.lightbox.completeTimerPending && g'.lightbox.pendingFrames == g.lightbox.pendingFrames + 1
  {
    RerenderSettles(g, ProjectClick(g.folder, projects, i, true), g.lightbox);
  }

  /** Opening without a measured rectangle selects the project but does not make a hidden lightbox render. */
  lemma OpenWithoutRectRendersNothing(g: GalleryState, projects: seq<Project>, i: nat)
    requires Valid(g, projects) && i < PreviewCount(projects) && !Renders(g, projects)
    requires g.folder.sourceRect.None? && !g.lightbox.shouldRender
    ensures var g' := Step(g, projects, ClickCard(i, false));
      PropsOf(g'.folder).isOpen && !g'.lightbox.shouldRender
  {
    RerenderSettles(g, ProjectClick(g.folder, projects, i, false), g.lightbox);
  }

  /** The lightbox starts rendering only in the opening effect: open, with a rectangle, in the initial pose. */
  lemma RenderStartsOnlyWhenOpenWithRect(g: GalleryState, projects: seq<Project>, e: Event)
    requires Valid(g, projects) && Enabled(g, projects, e)
    requires !g.lightbox.shouldRender && Step(g, projects, e).lightbox.shouldRender
    ensures var g' := Step(g, projects, e);
      && PropsOf(g'.folder).isOpen && g'.folder.sourceRect.Some?
      && g'.lightbox.animationPhase == Initial && !g'.lightbox.isClosing
  {
    var f, lb := g.folder, g.lightbox;
    match e
    case MouseEnter => RerenderSettles(g, f.(isHovered := true), lb);
    case MouseLeave => RerenderSettles(g, f.(isHovered := false), lb);
    case ClickCard(index, cardMounted) =>
      RerenderSettles(g, ProjectClick(f, projects, index, cardMounted), lb);
    case ClickNext =>
    case ClickPrev =>
    case ClickDot(dot) =>
    case ClickClose =>
    case KeyDown(key) =>
      if PropsOf(f).isOpen {
        match key
        case Escape => RerenderSettles(g, CloseLightbox(f), BeginClose(lb));
        case ArrowRight => NavigateRerenders(g, projects, NextRequest(lb, |projects|));
        case ArrowLeft => NavigateRerenders(g, projects, PrevRequest(lb));
        case OtherKey =>
      }
    case FrameTick =>
    case OpenTimer =>
    case CloseTimer =>
  }

  /** A navigation request moves the open lightbox to the requested project at once, and changes nothing else of the lightbox. */
  lemma NavigateRerenders(g: GalleryState, projects: seq<Project>, request: Option<nat>)
    requires Valid(g, projects) && PropsOf(g.folder).isOpen
    ensures request.None? ==> Navigate(g, projects, request) == g
    ensures request.Some? ==>
      (Navigate(g, projects, request) ==
         GalleryState(NavigateTo(g.folder, projects, request.value),
                      g.lightbox.(internalIndex := request.value,
                                  slideDeps := SlideDeps(request.value, true, request.value, false),
                                  syncDeps := SyncDeps(true, request.value))))
  {
    if request.Some? {
      RerenderSettles(g, NavigateTo(g.folder, projects, request.value), g.lightbox);
    }
  }

  /** The frame after opening moves to the animating phase and changes nothing else. */
  lemma FrameAnimates(g: GalleryState, projects: seq<Project>)
    requires Valid(g, projects) && g.lightbox.pendingFrames > 0
    ensures Step(g, projects, FrameTick) ==
      GalleryState(g.folder, g.lightbox.(animationPhase := Animating, pendingFrames := g.lightbox.pendingFrames - 1))
  {
    RerenderSettles(g, g.folder, FrameFires(g.lightbox));
  }

  /** The 700 ms timer moves to the complete phase and changes nothing else. */
  lemma OpenTimerCompletes(g: GalleryState, projects: seq<Project>)
    requires Valid(g, projects) && g.lightbox.completeTimerPending
    ensures Step(g, projects, OpenTimer) ==
      GalleryState(g.folder, g.lightbox.(animationPhase := Complete, completeTimerPending := false))
  {
    RerenderSettles(g, g.folder, CompleteTimerFires(g.lightbox));
  }

  // -------------------------------------------------------- navigation

  /** Next moves the open lightbox exactly one project on, with no wrap-around past the last. */
  lemma NextMovesOne(g: GalleryState, projects: seq<Project>)
    requires Valid(g, projects) && PropsOf(g.folder).isOpen
    ensures var i, g' := g.lightbox.internalIndex, KeyStep(g, projects, ArrowRight);
      && (i + 1 < |projects| ==>
            g'.lightbox.internalIndex == i + 1 && g'.folder.selectedIndex == Some(i + 1)
            && g'.folder.hiddenCardId == IdOrNull(projects, i + 1) && !g'.lightbox.isSliding)
      && (i + 1 >= |projects| ==> g' == g)
  {
    NavigateRerenders(g, projects, NextRequest(g.lightbox, |projects|));
  }

  /** Previous moves the open lightbox exactly one project back, and does nothing on the first. */
  lemma PrevMovesOne(g: GalleryState, projects: seq<Project>)
    requires Valid(g, projects) && PropsOf(g.folder).isOpen
    ensures var i, g' := g.lightbox.internalIndex, KeyStep(g, projects, ArrowLeft);
      && (i > 0 ==>
            g'.lightbox.internalIndex == i - 1 && g'.folder.selectedIndex == Some(i - 1)
            && g'.folder.hiddenCardId == IdOrNull(projects, i - 1) && !g'.lightbox.isSliding)
      && (i == 0 ==> g' == g)
  {
    NavigateRerenders(g, projects, PrevRequest(g.lightbox));
  }

  /**
   * A dot can be clicked whenever the lightbox renders, fading out included:
   * it shows that project and selects it again, and the dot of the current
   * project does nothing.
   */
  lemma DotShowsProject(g: GalleryState, projects: seq<Project>, dot: nat)
    requires Valid(g, projects) && Enabled(g, projects, ClickDot(dot))
    ensures var g' := Step(g, projects, ClickDot(dot));
      && g'.lightbox.internalIndex == dot
      && (dot != g.lightbox.internalIndex ==> g'.folder.selectedIndex == Some(dot))
      && (dot == g.lightbox.internalIndex ==> g' == g)
  {
    if dot != g.lightbox.internalIndex {
      RerenderSettles(g, NavigateTo(g.folder, projects, dot), g.lightbox);
    }
  }

  /**
   * A dot clicked while the lightbox fades out selects its project again, and
   * the pending 500 ms callback then stops the lightbox rendering: a project
   * stays selected with no lightbox on screen and no card hidden.
   */
  lemma DotDuringFadeOutLeavesSelectionUnshown(g: GalleryState, projects: seq<Project>, d: nat)
    requires Valid(g, projects) && Renders(g, projects) && PropsOf(g.folder).isOpen
    requires d < |projects| && d != g.lightbox.internalIndex
    ensures var g' := Run(g, projects, [ClickClose, ClickDot(d), CloseTimer]);
      && PropsOf(g'.folder).isOpen && g'.folder.selectedIndex == Some(d)
      && !g'.lightbox.shouldRender
      && g'.folder.hiddenCardId.None?
  {
    var g1 := Step(g, projects, ClickClose);
    RerenderSettles(g, CloseLightbox(g.folder), BeginClose(g.lightbox));
    StepPreservesValid(g, projects, ClickClose);
    var g2 := Step(g1, projects, ClickDot(d));
    DotShowsProject(g1, projects, d);
    StepPreservesValid(g1, projects, ClickDot(d));
    var g3 := Step(g2, projects, CloseTimer);
    CloseTimerEndsClose(g2, projects);
    var events := [ClickClose, ClickDot(d), CloseTimer];
    assert Run(g2, projects, events[2..]) == g3 by {
      assert events[2..][1..] == [];
    }
    assert Run(g1, projects, events[1..]) == g3 by {
      assert events[1..][1..] == events[2..];
    }
  }

  /**
   * Two quick presses of ArrowRight both take effect: the sliding guard never
   * holds between events, so the second press, made before any 400 ms
   * timer, moves on a second project.
   */
  lemma RapidNextsBothHonoured(g: GalleryState, projects: seq<Project>)
    requires Valid(g, projects) && PropsOf(g.folder).isOpen
    requires g.lightbox.internalIndex + 2 < |projects|
    ensures Step(Step(g, projects, KeyDown(ArrowRight)), projects, KeyDown(ArrowRight)).lightbox.internalIndex
            == g.lightbox.internalIndex + 2
  {
    var g1 := Step(g, projects, KeyDown(ArrowRight));
    NextMovesOne(g, projects);
    StepPreservesValid(g, projects, KeyDown(ArrowRight));
    NextMovesOne(g1, projects);
  }

  /** Next then previous returns the open lightbox to where it was, with no slide in progress. */
  lemma NextThenPrevReturns(g: GalleryState, projects: seq<Project>)
    requires Valid(g, projects) && PropsOf(g.folder).isOpen
    requires g.lightbox.internalIndex + 1 < |projects|
    ensures var g2 := Step(Step(g, projects, KeyDown(ArrowRight)), projects, KeyDown(ArrowLeft));
      && g2.lightbox.internalIndex == g.lightbox.internalIndex
      && g2.folder.selectedIndex == g.folder.selectedIndex
      && !g2.lightbox.isSliding
  {
    var g1 := Step(g, projects, KeyDown(ArrowRight));
    NextMovesOne(g, projects);
    StepPreservesValid(g, projects, KeyDown(ArrowRight));
    PrevMovesOne(g1, projects);
  }

  /** While closed, no key changes anything. */
  lemma KeysIgnoredWhileClosed(g: GalleryState, projects: seq<Project>, key: Key)
    requires Valid(g, projects) && g.folder.selectedIndex.None?
    ensures Step(g, projects, KeyDown(key)) == g
  {
  }

  /**
   * The keyboard navigates in every phase: while the arrow buttons take no
   * clicks (the lightbox not rendered, or not yet in the complete phase),
   * ArrowRight and ArrowLeft still move the open lightbox one project.
   */
  lemma KeysNavigateInAnyPhase(g: GalleryState, projects: seq<Project>)
    requires Valid(g, projects) && g.folder.selectedIndex.Some?
    requires !Renders(g, projects) || g.lightbox.animationPhase != Complete
    ensures !Enabled(g, projects, ClickNext) && !Enabled(g, projects, ClickPrev)
    ensures g.lightbox.internalIndex + 1 < |projects| ==>
      Step(g, projects, KeyDown(ArrowRight)).lightbox.internalIndex == g.lightbox.internalIndex + 1
    ensures g.lightbox.internalIndex > 0 ==>
      Step(g, projects, KeyDown(ArrowLeft)).lightbox.internalIndex + 1 == g.lightbox.internalIndex
  {
    NextMovesOne(g, projects);
    PrevMovesOne(g, projects);
  }

  /**
   * Once the lightbox renders, only the 500 ms close callback stops it
   * rendering: every other event, closing included, leaves the backdrop over
   * the folder.
   */
  lemma OnlyCloseTimerUncoversFolder(g: GalleryState, projects: seq<Project>, e: Event)
    requires Valid(g, projects) && Renders(g, projects) && Enabled(g, projects, e)
    ensures Renders(Step(g, projects, e), projects) <==> !e.CloseTimer?
  {
    StepPreservesValid(g, projects, e);
    var f, lb := g.folder, g.lightbox;
    match e
    case MouseEnter =>
    case MouseLeave => RerenderSettles(g, f.(isHovered := false), lb);
    case ClickCard(index, cardMounted) =>
    case ClickNext => NavigateKeepsRendering(g, projects, NextRequest(lb, |projects|));
    case ClickPrev => NavigateKeepsRendering(g, projects, PrevRequest(lb));
    case ClickDot(dot) => NavigateKeepsRendering(g, projects, DotRequest(lb, dot));
    case ClickClose => RerenderSettles(g, CloseLightbox(f), BeginClose(lb));
    case KeyDown(key) =>
      if PropsOf(f).isOpen {
        match key
        case Escape => RerenderSettles(g, CloseLightbox(f), BeginClose(lb));
        case ArrowRight => NavigateKeepsRendering(g, projects, NextRequest(lb, |projects|));
        case ArrowLeft => NavigateKeepsRendering(g, projects, PrevRequest(lb));
        case OtherKey =>
      }
    case FrameTick => RerenderSettles(g, f, FrameFires(lb));
    case OpenTimer => RerenderSettles(g, f, CompleteTimerFires(lb));
    case CloseTimer => RerenderSettles(g, CloseComplete(f), CloseTimerFires(lb));
  }

  lemma NavigateKeepsRendering(g: GalleryState, projects: seq<Project>, request: Option<nat>)
    requires Valid(g, projects) && g.lightbox.shouldRender
    requires request.Some? ==> request.value < |projects|
    ensures Navigate(g, projects, request).lightbox.shouldRender
  {
    if request.Some? {
      RerenderSettles(g, NavigateTo(g.folder, projects, request.value), g.lightbox);
    }
  }

  /**
   * So along any run without a close callback the backdrop stays, and with it
   * no preview card can be clicked and the folder cannot be entered.
   */
  lemma {:induction false} BackdropStaysUntilCloseTimer(g: GalleryState, projects: seq<Project>, events: seq<Event>)
    requires Valid(g, projects) && Renders(g, projects)
    requires forall k :: 0 <= k < |events| ==> !events[k].CloseTimer?
    ensures Renders(Run(g, projects, events), projects)
    ensures forall i: nat, mounted: bool :: !Enabled(Run(g, projects, events), projects, ClickCard(i, mounted))
    decreases |events|
  {
    if events != [] {
      var g' := if Enabled(g, projects, events[0]) then Step(g, projects, events[0]) else g;
      if Enabled(g, projects, events[0]) {
        StepPreservesValid(g, projects, events[0]);
        OnlyCloseTimerUncoversFolder(g, projects, events[0]);
      }
      BackdropStaysUntilCloseTimer(g', projects, events[1..]);
    }
  }

  /**
   * Hovering or leaving the folder changes `isHovered` and nothing else; the
   * pointer can enter the folder only while no lightbox covers it.
   */
  lemma HoverChangesOnlyHover(g: GalleryState, projects: seq<Project>)
    requires Valid(g, projects)
    ensures Enabled(g, projects, MouseEnter) <==> !Renders(g, projects)
    ensures !Renders(g, projects) ==>
      Step(g, projects, MouseEnter) == GalleryState(g.folder.(isHovered := true), g.lightbox)
    ensures Step(g, projects, MouseLeave) == GalleryState(g.folder.(isHovered := false), g.lightbox)
  {
    if !Renders(g, projects) {
      RerenderSettles(g, g.folder.(isHovered := true), g.lightbox);
    }
    RerenderSettles(g, g.folder.(isHovered := false), g.lightbox);
  }

  // ----------------------------------------------------------- closing

  /**
   * Closing clears the selection and the rectangle at once, cancels the 700 ms
   * timer and keeps showing the last project while it fades out; the 500 ms
   * timer then stops rendering, resets the phase and shows the hidden card again.
   */
  lemma CloseSequence(g: GalleryState, projects: seq<Project>)
    requires Valid(g, projects) && PropsOf(g.folder).isOpen
    ensures var g1 := Step(g, projects, KeyDown(Escape));
      && g1.folder.selectedIndex.None? && g1.folder.sourceRect.None?
      && g1.lightbox.isClosing && g1.lightbox.pendingCloseTimers == g.lightbox.pendingCloseTimers + 1
      && !g1.lightbox.completeTimerPending
      && g1.lightbox.internalIndex == g.lightbox.internalIndex
      && var g2 := Step(g1, projects, CloseTimer);
         && g2.folder.hiddenCardId.None? && g2.folder.selectedIndex.None?
         && !g2.lightbox.shouldRender && !g2.lightbox.isClosing && g2.lightbox.animationPhase == Initial
  {
    RerenderSettles(g, CloseLightbox(g.folder), BeginClose(g.lightbox));
    var g1 := Step(g, projects, KeyDown(Escape));
    StepPreservesValid(g, projects, KeyDown(Escape));
    RerenderSettles(g1, CloseComplete(g1.folder), CloseTimerFires(g1.lightbox));
  }

  /**
   * Whatever state it fires in, a pending 500 ms callback ends the close:
   * the lightbox stops rendering and closing, the phase is reset and no card
   * is hidden any more.
   */
  lemma CloseTimerEndsClose(g: GalleryState, projects: seq<Project>)
    requires Valid(g, projects) && g.lightbox.pendingCloseTimers > 0
    ensures var g' := Step(g, projects, CloseTimer);
      && !g'.lightbox.isClosing && !g'.lightbox.shouldRender && g'.lightbox.animationPhase == Initial
      && g'.folder.hiddenCardId.None?
      && g'.folder.selectedIndex == g.folder.selectedIndex
      && g'.lightbox.pendingCloseTimers + 1 == g.lightbox.pendingCloseTimers
  {
    RerenderSettles(g, CloseComplete(g.folder), CloseTimerFires(g.lightbox));
  }

  /**
   * The 500 ms callback is never cancelled: after a double click on the
   * backdrop the second callback fires after the first, and if a card was
   * opened in between it stops that lightbox rendering and shows its card
   * again while the project stays selected.
   */
  lemma LateCloseTimerHidesReopenedLightbox(g: GalleryState, projects: seq<Project>, j: nat)
    requires Valid(g, projects) && Renders(g, projects) && PropsOf(g.folder).isOpen
    requires j < PreviewCount(projects)
    ensures var g' := Run(g, projects, [ClickClose, ClickClose, CloseTimer, ClickCard(j, true), CloseTimer]);
      && g'.folder.selectedIndex == Some(j)
      && !g'.lightbox.shouldRender
      && g'.folder.hiddenCardId.None?
  {
    var g1 := Step(g, projects, ClickClose);
    RerenderSettles(g, CloseLightbox(g.folder), BeginClose(g.lightbox));
    StepPreservesValid(g, projects, ClickClose);
    assert Enabled(g1, projects, ClickClose);
    var g2 := Step(g1, projects, ClickClose);
    RerenderSettles(g1, CloseLightbox(g1.folder), BeginClose(g1.lightbox));
    StepPreservesValid(g1, projects, ClickClose);
    var g3 := Step(g2, projects, CloseTimer);
    RerenderSettles(g2, CloseComplete(g2.folder), CloseTimerFires(g2.lightbox));
    StepPreservesValid(g2, projects, CloseTimer);
    var g4 := Step(g3, projects, ClickCard(j, true));
    ClickCardOpens(g3, projects, j);
    StepPreservesValid(g3, projects, ClickCard(j, true));
    var g5 := Step(g4, projects, CloseTimer);
    RerenderSettles(g4, CloseComplete(g4.folder), CloseTimerFires(g4.lightbox));
    var events := [ClickClose, ClickClose, CloseTimer, ClickCard(j, true), CloseTimer];
    assert Run(g4, projects, events[4..]) == g5 by {
      assert events[4..][1..] == [];
    }
    assert Run(g3, projects, events[3..]) == g5 by {
      assert events[3..][1..] == events[4..];
    }
    assert Run(g2, projects, events[2..]) == g5 by {
      assert events[2..][1..] == events[3..];
    }
    assert Run(g1, projects, events[1..]) == g5 by {
      assert events[1..][1..] == events[2..];
    }
  }

  // ------------------------------------------------------ hidden card

  predicate UniqueIds(projects: seq<Project>) {
    forall i, j :: 0 <= i < j < |projects| ==> projects[i].id != projects[j].id
  }

  /** With distinct ids, the card made invisible is exactly the selected project's, if any is. */
  lemma HiddenCardIsSelected(g: GalleryState, projects: seq<Project>, k: nat)
    requires Valid(g, projects) && UniqueIds(projects) && k < |projects|
    requires g.folder.selectedIndex.Some? && g.folder.hiddenCardId.Some?
    ensures CardHidden(g.folder, projects, k) <==> g.folder.selectedIndex == Some(k)
  {
  }
}
