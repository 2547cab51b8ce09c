/**
 * The animated folder and its image lightbox as the two stateful components
 * they are. Each handler, effect and timer callback is a method; every
 * method is proved to change the state exactly as the value model in
 * GalleryModel says, and every user or timer event keeps the folder valid.
 */
module Gallery {
  import opened Options
  import opened GalleryModel
  import GalleryProperties

  /** The lightbox's own state; its props are passed to the methods that read them. */
  class ImageLightbox {
    var animationPhase: Phase
    var isClosing: bool
    var shouldRender: bool
    var internalIndex: nat
    var isSliding: bool
    var slideTimer: Option<nat>
    var completeTimerPending: bool
    var pendingFrames: nat
    var pendingCloseTimers: nat
    var slideDeps: SlideDeps
    var syncDeps: SyncDeps
    var openDeps: OpenDeps

    function State(): LightboxState
      reads this
    {
      LightboxState(animationPhase, isClosing, shouldRender, internalIndex, isSliding,
        slideTimer, completeTimerPending, pendingFrames, pendingCloseTimers,
        slideDeps, syncDeps, openDeps)
    }

    /** Mounted with the folder's initial props (index 0, closed); the first run of each effect does nothing. */
    constructor ()
      ensures State() == MountedLightbox()
    {
      animationPhase, isClosing, shouldRender := Initial, false, false;
      internalIndex, isSliding := 0, false;
      slideTimer, completeTimerPending, pendingFrames, pendingCloseTimers := None, false, 0, 0;
      slideDeps, syncDeps, openDeps := SlideDeps(0, false, 0, false), SyncDeps(false, 0), OpenDeps(false, None);
    }

    /** `navigateNext`: the index handed to onNavigate, if any. */
    method NavigateNext(totalProjects: int) returns (request: Option<nat>)
      ensures request == NextRequest(State(), totalProjects)
    {
      if internalIndex >= totalProjects - 1 || isSliding {
        return None;
      }
      request := Some(internalIndex + 1);
    }

    /** `navigatePrev`: the index handed to onNavigate, if any. */
    method NavigatePrev() returns (request: Option<nat>)
      ensures request == PrevRequest(State())
    {
      if internalIndex <= 0 || isSliding {
        return None;
      }
      request := Some(internalIndex - 1);
    }

    /** `handleDotClick(idx)`: the index handed to onNavigate, if any. */
    method HandleDotClick(idx: nat) returns (request: Option<nat>)
      ensures request == DotRequest(State(), idx)
    {
      if isSliding || idx == internalIndex {
        return None;
      }
      request := Some(idx);
    }

    /** `handleClose`, up to its call of onClose. */
    method HandleClose()
      modifies this
      ensures State() == BeginClose(old(State()))
    {
      isClosing := true;
      pendingCloseTimers := pendingCloseTimers + 1;
    }

    /** The 500 ms callback of `handleClose`, up to its call of onCloseComplete. */
    method CloseTimerCallback()
      requires pendingCloseTimers > 0
      modifies this
      ensures State() == CloseTimerFires(old(State()))
    {
      isClosing := false;
      shouldRender := false;
      animationPhase := Initial;
      pendingCloseTimers := pendingCloseTimers - 1;
    }

    /** The nested requestAnimationFrame callback of the opening effect. */
    method FrameCallback()
      requires pendingFrames > 0
      modifies this
      ensures State() == FrameFires(old(State()))
    {
      animationPhase := Animating;
      pendingFrames := pendingFrames - 1;
    }

    /** The 700 ms callback of the opening effect. */
    method CompleteTimerCallback()
      requires completeTimerPending
      modifies this
      ensures State() == CompleteTimerFires(old(State()))
    {
      animationPhase := Complete;
      completeTimerPending := false;
    }

    /** The 400 ms callback of the slide effect. */
    method SlideTimerCallback()
      requires slideTimer.Some?
      modifies this
      ensures State() == SlideTimerFires(old(State()))
    {
      internalIndex := slideTimer.value;
      isSliding := false;
      slideTimer := None;
    }

    /** The layout effect on [isOpen, sourceRect], cleanup included. */
    method RunOpenEffect(props: Props)
      modifies this
      ensures State() == OpenEffect(old(State()), props)
    {
      completeTimerPending := false;
      if props.isOpen && props.sourceRect.Some? {
        shouldRender := true;
        animationPhase := Initial;
        isClosing := false;
        pendingFrames := pendingFrames + 1;
        completeTimerPending := true;
      }
      openDeps := OpenDeps(props.isOpen, props.sourceRect);
    }

    /** The effect on [currentIndex, isOpen, internalIndex, isSliding], cleanup included. */
    method RunSlideEffect(props: Props)
      modifies this
      ensures State() == SlideEffect(old(State()), props)
    {
      slideDeps := SlideDeps(props.currentIndex, props.isOpen, internalIndex, isSliding);
      slideTimer := None;
      if props.isOpen && props.currentIndex != internalIndex && !isSliding {
        isSliding := true;
        slideTimer := Some(props.currentIndex);
      }
    }

    /** The effect on [isOpen, currentIndex]. */
    method RunSyncEffect(props: Props)
      modifies this
      ensures State() == SyncEffect(old(State()), props)
    {
      if props.isOpen {
        internalIndex := props.currentIndex;
        isSliding := false;
      }
      syncDeps := SyncDeps(props.isOpen, props.currentIndex);
    }
  }

  /** The folder, which owns the selection and renders the lightbox with props derived from it. */
  class AnimatedFolder {
    const projects: seq<Project>
    const lightbox: ImageLightbox
    var isHovered: bool
    var selectedIndex: Option<nat>
    var sourceRect: Option<Rect>
    var hiddenCardId: Option<string>
    var measurements: nat

    function State(): FolderState
      reads this
    {
      FolderState(isHovered, selectedIndex, sourceRect, hiddenCardId, measurements)
    }

    function Snapshot(): GalleryState
      reads this, lightbox
    {
      GalleryState(State(), lightbox.State())
    }

    ghost predicate Valid()
      reads this, lightbox
    {
      GalleryModel.Valid(Snapshot(), projects)
    }

    constructor (projects: seq<Project>)
      ensures this.projects == projects && fresh(lightbox)
      ensures Snapshot() == InitialGallery() && Valid()
    {
      this.projects := projects;
      lightbox := new ImageLightbox();
      isHovered, selectedIndex, sourceRect, hiddenCardId, measurements := false, None, None, None, 0;
      new;
      GalleryProperties.InitialValid(projects);
    }

    // Handlers: they set the folder's state; React re-renders afterwards.

    /** `handleProjectClick(previewProjects[index], index)`. */
    method HandleProjectClick(index: nat, cardMounted: bool)
      requires index < |projects|
      modifies this
      ensures State() == ProjectClick(old(State()), projects, index, cardMounted)
    {
      if cardMounted {
        sourceRect := Some(Measured(measurements));
        measurements := measurements + 1;
      }
      selectedIndex := Some(index);
      hiddenCardId := Some(projects[index].id);
    }

    method HandleCloseLightbox()
      modifies this
      ensures State() == CloseLightbox(old(State()))
    {
      selectedIndex := None;
      sourceRect := None;
    }

    method HandleCloseComplete()
      modifies this
      ensures State() == CloseComplete(old(State()))
    {
      hiddenCardId := None;
    }

    method HandleNavigate(newIndex: nat)
      modifies this
      ensures State() == NavigateTo(old(State()), projects, newIndex)
    {
      selectedIndex := Some(newIndex);
      hiddenCardId := if newIndex < |projects| && projects[newIndex].id != "" then Some(projects[newIndex].id) else None;
    }

    // Rendering: one commit runs the effects whose dependencies changed.

    method CommitEffects()
      modifies lightbox
      ensures lightbox.State() == Commit(old(lightbox.State()), PropsOf(State()))
    {
      var props := PropsOf(State());
      if lightbox.openDeps != OpenDeps(props.isOpen, props.sourceRect) {
        lightbox.RunOpenEffect(props);
      }
      if lightbox.slideDeps != CurrentSlideDeps(lightbox.State(), props) {
        lightbox.RunSlideEffect(props);
      }
      if lightbox.syncDeps != SyncDeps(props.isOpen, props.currentIndex) {
        lightbox.RunSyncEffect(props);
      }
    }

    /** The re-render after a state change and the commits that follow it. */
    method RenderAndCommit()
      modifies lightbox
      ensures lightbox.State() == Settle(old(lightbox.State()), PropsOf(State()))
    {
      CommitEffects();
      CommitEffects();
    }

    method NavigateAndRender(request: Option<nat>)
      modifies this, lightbox
      ensures Snapshot() == Navigate(old(Snapshot()), projects, request)
    {
      if request.Some? {
        HandleNavigate(request.value);
        RenderAndCommit();
      }
    }

    /** `handleClose` as the lightbox runs it: its own update, then onClose, then the re-render. */
    method CloseAndRender()
      modifies this, lightbox
      ensures Snapshot() == Close(old(Snapshot()))
    {
      lightbox.HandleClose();
      HandleCloseLightbox();
      RenderAndCommit();
    }

    // Events: what the user and the timers do.

    method OnMouseEnter()
      requires Valid() && Enabled(Snapshot(), projects, MouseEnter)
      modifies this, lightbox
      ensures Valid() && Snapshot() == Step(old(Snapshot()), projects, MouseEnter)
    {
      ghost var g := Snapshot();
      isHovered := true;
      RenderAndCommit();
      GalleryProperties.StepPreservesValid(g, projects, MouseEnter);
    }

    method OnMouseLeave()
      requires Valid()
      modifies this, lightbox
      ensures Valid() && Snapshot() == Step(old(Snapshot()), projects, MouseLeave)
    {
      ghost var g := Snapshot();
      isHovered := false;
      RenderAndCommit();
      GalleryProperties.StepPreservesValid(g, projects, MouseLeave);
    }

    /** A click on preview card `index`; `cardMounted` says whether its element ref is set. */
    method OnCardClick(index: nat, cardMounted: bool)
      requires Valid() && Enabled(Snapshot(), projects, ClickCard(index, cardMounted))
      modifies this, lightbox
      ensures Valid() && Snapshot() == Step(old(Snapshot()), projects, ClickCard(index, cardMounted))
    {
      ghost var g := Snapshot();
      HandleProjectClick(index, cardMounted);
      RenderAndCommit();
      GalleryProperties.StepPreservesValid(g, projects, ClickCard(index, cardMounted));
    }

    method OnNextClick()
      requires Valid() && Enabled(Snapshot(), projects, ClickNext)
      modifies this, lightbox
      ensures Valid() && Snapshot() == Step(old(Snapshot()), projects, ClickNext)
    {
      ghost var g := Snapshot();
      var request := lightbox.NavigateNext(|projects|);
      NavigateAndRender(request);
      GalleryProperties.StepPreservesValid(g, projects, ClickNext);
    }

    method OnPrevClick()
      requires Valid() && Enabled(Snapshot(), projects, ClickPrev)
      modifies this, lightbox
      ensures Valid() && Snapshot() == Step(old(Snapshot()), projects, ClickPrev)
    {
      ghost var g := Snapshot();
      var request := lightbox.NavigatePrev();
      NavigateAndRender(request);
      GalleryProperties.StepPreservesValid(g, projects, ClickPrev);
    }

    method OnDotClick(dot: nat)
      requires Valid() && Enabled(Snapshot(), projects, ClickDot(dot))
      modifies this, lightbox
      ensures Valid() && Snapshot() == Step(old(Snapshot()), projects, ClickDot(dot))
    {
      ghost var g := Snapshot();
      var request := lightbox.HandleDotClick(dot);
      NavigateAndRender(request);
      GalleryProperties.StepPreservesValid(g, projects, ClickDot(dot));
    }

    /** A click on the close button or on the backdrop. */
    method OnCloseClick()
      requires Valid() && Enabled(Snapshot(), projects, ClickClose)
      modifies this, lightbox
      ensures Valid() && Snapshot() == Step(old(Snapshot()), projects, ClickClose)
    {
      ghost var g := Snapshot();
      CloseAndRender();
      GalleryProperties.StepPreservesValid(g, projects, ClickClose);
    }

    /** The window keydown listener. */
    method OnKeyDown(key: Key)
      requires Valid()
      modifies this, lightbox
      ensures Valid() && Snapshot() == Step(old(Snapshot()), projects, KeyDown(key))
    {
      ghost var g := Snapshot();
      if selectedIndex.None? {
        return;
      }
      if key == Escape {
        CloseAndRender();
      }
      if key == ArrowRight {
        var request := lightbox.NavigateNext(|projects|);
        NavigateAndRender(request);
      }
      if key == ArrowLeft {
        var request := lightbox.NavigatePrev();
        NavigateAndRender(request);
      }
      GalleryProperties.StepPreservesValid(g, projects, KeyDown(key));
    }

    method OnAnimationFrame()
      requires Valid() && lightbox.pendingFrames > 0
      modifies this, lightbox
      ensures Valid() && Snapshot() == Step(old(Snapshot()), projects, FrameTick)
    {
      ghost var g := Snapshot();
      lightbox.FrameCallback();
      RenderAndCommit();
      GalleryProperties.StepPreservesValid(g, projects, FrameTick);
    }

    /** The 700 ms timer of the opening effect. */
    method OnOpenTimer()
      requires Valid() && lightbox.completeTimerPending
      modifies this, lightbox
      ensures Valid() && Snapshot() == Step(old(Snapshot()), projects, OpenTimer)
    {
      ghost var g := Snapshot();
      lightbox.CompleteTimerCallback();
      RenderAndCommit();
      GalleryProperties.StepPreservesValid(g, projects, OpenTimer);
    }

    /** The 500 ms timer of `handleClose`, which ends with onCloseComplete. */
    method OnCloseTimer()
      requires Valid() && lightbox.pendingCloseTimers > 0
      modifies this, lightbox
      ensures Valid() && Snapshot() == Step(old(Snapshot()), projects, CloseTimer)
    {
      ghost var g := Snapshot();
      lightbox.CloseTimerCallback();
      HandleCloseComplete();
      RenderAndCommit();
      GalleryProperties.StepPreservesValid(g, projects, CloseTimer);
    }
  }

  /**
   * Five projects, the third one opened, ArrowRight pressed twice in quick
   * succession: the lightbox ends on the fifth project, not the fourth.
   */
  method RapidDoubleArrowRight() returns (shown: nat)
    ensures shown == 4
  {
    var projects := [Project("a", "", "", None), Project("b", "", "", None), Project("c", "", "", None),
                     Project("d", "", "", None), Project("e", "", "", None)];
    var folder := new AnimatedFolder(projects);
    ghost var g0 := folder.Snapshot();
    folder.OnCardClick(2, true);
    GalleryProperties.ClickCardOpens(g0, projects, 2);
    ghost var g1 := folder.Snapshot();
    folder.OnKeyDown(ArrowRight);
    folder.OnKeyDown(ArrowRight);
    GalleryProperties.RapidNextsBothHonoured(g1, projects);
    shown := folder.lightbox.internalIndex;
  }
}
