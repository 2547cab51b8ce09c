/**
 * The animated folder and its image lightbox, as values.
 *
 * The folder owns the selection (`selectedIndex`, `sourceRect`,
 * `hiddenCardId`, `isHovered`); the lightbox derives its props from it
 * (`currentIndex = selectedIndex ?? 0`, `isOpen = selectedIndex !== null`) and
 * owns the animation state (`animationPhase`, `isClosing`, `shouldRender`,
 * `internalIndex`, `isSliding`). Timers and animation frames are explicit
 * events. React's effects are modelled as they run: each effect remembers the
 * dependency values it last ran with, and a commit runs, in order, the layout
 * effect and then the two index effects whose dependencies changed (cleanup
 * first, then the body). After every event the page re-renders and commits
 * until nothing changes; two commits always suffice (SettleClosedForm).
 */
module GalleryModel {
  import opened Options

  datatype Project = Project(id: string, image: string, title: string, description: Option<string>)

  /** Only the first five projects get a preview card in the folder. */
  const PreviewLimit: nat := 5

  function PreviewCount(projects: seq<Project>): (n: nat)
    ensures n <= PreviewLimit && n <= |projects|
    ensures n == PreviewLimit || n == |projects|
  {
    if |projects| < PreviewLimit then |projects| else PreviewLimit
  }

  /**
   * A rectangle measured with getBoundingClientRect. Every measurement is a
   * new object and React compares dependencies by identity, so the model
   * keeps only which measurement produced it; its geometry is not modelled.
   */
  datatype Rect = Measured(serial: nat)

  datatype Phase = Initial | Animating | Complete

  /** What the folder passes to the lightbox. */
  datatype Props = Props(currentIndex: nat, isOpen: bool, sourceRect: Option<Rect>)

  /** The dependency values an effect last ran with. */
  datatype SlideDeps = SlideDeps(currentIndex: nat, isOpen: bool, internalIndex: nat, isSliding: bool)
  datatype SyncDeps = SyncDeps(isOpen: bool, currentIndex: nat)
  datatype OpenDeps = OpenDeps(isOpen: bool, sourceRect: Option<Rect>)

  datatype LightboxState = LightboxState(
    animationPhase: Phase,
    isClosing: bool,
    shouldRender: bool,
    internalIndex: nat,
    isSliding: bool,
    slideTimer: Option<nat>,     // the pending 400 ms callback and the index it will commit
    completeTimerPending: bool,  // the pending 700 ms callback
    pendingFrames: nat,          // requestAnimationFrame chains not yet run
    pendingCloseTimers: nat,     // 500 ms callbacks of handleClose not yet run
    slideDeps: SlideDeps,
    syncDeps: SyncDeps,
    openDeps: OpenDeps)

  datatype FolderState = FolderState(
    isHovered: bool,
    selectedIndex: Option<nat>,
    sourceRect: Option<Rect>,
    hiddenCardId: Option<string>,
    measurements: nat)           // rectangles measured so far

  datatype GalleryState = GalleryState(folder: FolderState, lightbox: LightboxState)

  function PropsOf(f: FolderState): Props {
    Props(f.selectedIndex.GetOr(0), f.selectedIndex.Some?, f.sourceRect)
  }

  /** The effect dependencies as the current render sees them. */
  function CurrentSlideDeps(lb: LightboxState, p: Props): SlideDeps {
    SlideDeps(p.currentIndex, p.isOpen, lb.internalIndex, lb.isSliding)
  }

  /** The folder's initial state. */
  function InitialFolder(): FolderState {
    FolderState(false, None, None, None, 0)
  }

  /** The lightbox just mounted: its state starts from its first props (index 0, closed), and every effect has run once with them, doing nothing. */
  function MountedLightbox(): LightboxState {
    LightboxState(Initial, false, false, 0, false, None, false, 0, 0,
      SlideDeps(0, false, 0, false), SyncDeps(false, 0), OpenDeps(false, None))
  }

  function InitialGallery(): GalleryState {
    GalleryState(InitialFolder(), MountedLightbox())
  }

  // ---------------------------------------------------------------- effects

  /** The layout effect on [isOpen, sourceRect]: cleanup cancels the 700 ms timer; when open with a rectangle it shows the lightbox in its initial pose and schedules a frame and the 700 ms timer. */
  function OpenEffect(lb: LightboxState, p: Props): LightboxState {
    var opening := p.isOpen && p.sourceRect.Some?;
    lb.(shouldRender := lb.shouldRender || opening,
        animationPhase := if opening then Initial else lb.animationPhase,
        isClosing := if opening then false else lb.isClosing,
        pendingFrames := if opening then lb.pendingFrames + 1 else lb.pendingFrames,
        completeTimerPending := opening,
        openDeps := OpenDeps(p.isOpen, p.sourceRect))
  }

  /** The effect on [currentIndex, isOpen, internalIndex, isSliding]: cleanup cancels the 400 ms timer; when open on another index and not sliding, it starts a slide and schedules the 400 ms timer. */
  function SlideEffect(lb: LightboxState, p: Props): LightboxState {
    var start := p.isOpen && p.currentIndex != lb.internalIndex && !lb.isSliding;
    lb.(isSliding := lb.isSliding || start,
        slideTimer := if start then Some(p.currentIndex) else None,
        slideDeps := CurrentSlideDeps(lb, p))
  }

  /** The effect on [isOpen, currentIndex]: when open it shows `currentIndex` at once and ends any slide. */
  function SyncEffect(lb: LightboxState, p: Props): LightboxState {
    var lb' := lb.(syncDeps := SyncDeps(p.isOpen, p.currentIndex));
    if p.isOpen then lb'.(internalIndex := p.currentIndex, isSliding := false) else lb'
  }

  function AfterOpenEffect(lb: LightboxState, p: Props): LightboxState {
    if lb.openDeps != OpenDeps(p.isOpen, p.sourceRect) then OpenEffect(lb, p) else lb
  }

  /** One commit: the layout effect, then the two effects in declaration order, each only if its dependencies changed. */
  function Commit(lb: LightboxState, p: Props): LightboxState {
    var a := AfterOpenEffect(lb, p);
    var b := if a.slideDeps != CurrentSlideDeps(a, p) then SlideEffect(a, p) else a;
    if b.syncDeps != SyncDeps(p.isOpen, p.currentIndex) then SyncEffect(b, p) else b
  }

  /** The commits that follow a state change until the page is stable. */
  function Settle(lb: LightboxState, p: Props): LightboxState {
    Commit(Commit(lb, p), p)
  }

  /** Nothing is left to run: every effect has seen the current values, no slide is in progress and an open lightbox shows `currentIndex`. */
  predicate Quiescent(lb: LightboxState, p: Props) {
    && lb.openDeps == OpenDeps(p.isOpen, p.sourceRect)
    && lb.slideDeps == CurrentSlideDeps(lb, p)
    && lb.syncDeps == SyncDeps(p.isOpen, p.currentIndex)
    && !lb.isSliding
    && lb.slideTimer.None?
    && (p.isOpen ==> lb.internalIndex == p.currentIndex)
  }

  /** The index effects' net result once everything has run. */
  function Synced(lb: LightboxState, p: Props): LightboxState {
    var index := if p.isOpen then p.currentIndex else lb.internalIndex;
    lb.(internalIndex := index, isSliding := false, slideTimer := None,
        slideDeps := SlideDeps(p.currentIndex, p.isOpen, index, false),
        syncDeps := SyncDeps(p.isOpen, p.currentIndex))
  }

  /**
   * From a quiescent state, whatever the new props, two commits reach a
   * quiescent state: the opening effect has run if its dependencies changed,
   * the open lightbox shows `currentIndex`, and the slide that the first
   * effect starts is ended by the second in the same commit and its timer is
   * cancelled in the next one.
   */
  lemma SettleClosedForm(lb: LightboxState, p0: Props, p1: Props)
    requires Quiescent(lb, p0)
    ensures Settle(lb, p1) == Synced(AfterOpenEffect(lb, p1), p1)
    ensures Quiescent(Settle(lb, p1), p1)
  {
    var a := AfterOpenEffect(lb, p1);
    var c1 := Commit(lb, p1);
    if (p0.isOpen, p0.currentIndex) == (p1.isOpen, p1.currentIndex) {
      assert c1 == a;
      assert Synced(a, p1) == a;
    } else if p1.isOpen {
      assert c1 == SyncEffect(SlideEffect(a, p1), p1);
      assert c1.internalIndex == p1.currentIndex && !c1.isSliding;
    } else {
      assert c1 == SyncEffect(SlideEffect(a, p1), p1);
    }
  }

  // --------------------------------------------------------------- handlers

  /** `navigateNext`: the index it asks the folder for, if any. */
  function NextRequest(lb: LightboxState, total: int): (request: Option<nat>)
    ensures request.None? <==> (lb.internalIndex >= total - 1 || lb.isSliding)
    ensures request.Some? ==> request.value == lb.internalIndex + 1 && request.value < total
  {
    if lb.internalIndex >= total - 1 || lb.isSliding then None else Some(lb.internalIndex + 1)
  }

  /** `navigatePrev`: the index it asks the folder for, if any. */
  function PrevRequest(lb: LightboxState): (request: Option<nat>)
    ensures request.None? <==> (lb.internalIndex == 0 || lb.isSliding)
    ensures request.Some? ==> request.value + 1 == lb.internalIndex
  {
    if lb.internalIndex <= 0 || lb.isSliding then None else Some(lb.internalIndex - 1)
  }

  /** `handleDotClick(idx)`: the index it asks the folder for, if any. */
  function DotRequest(lb: LightboxState, idx: nat): (request: Option<nat>)
    ensures request.None? <==> (lb.isSliding || idx == lb.internalIndex)
    ensures request.Some? ==> request.value == idx && idx != lb.internalIndex
  {
    if lb.isSliding || idx == lb.internalIndex then None else Some(idx)
  }

  /** `handleProjectClick(project, index)`: measure the card if it is mounted, select it and hide it. */
  function ProjectClick(f: FolderState, projects: seq<Project>, index: nat, cardMounted: bool): FolderState
    requires index < |projects|
  {
    f.(sourceRect := if cardMounted then Some(Measured(f.measurements)) else f.sourceRect,
       measurements := if cardMounted then f.measurements + 1 else f.measurements,
       selectedIndex := Some(index),
       hiddenCardId := Some(projects[index].id))
  }

  /** `projects[k]?.id || null`: an absent project or an empty id gives null. */
  function IdOrNull(projects: seq<Project>, k: nat): Option<string> {
    if k < |projects| && projects[k].id != "" then Some(projects[k].id) else None
  }

  /** `handleNavigate(newIndex)`. */
  function NavigateTo(f: FolderState, projects: seq<Project>, k: nat): FolderState {
    f.(selectedIndex := Some(k), hiddenCardId := IdOrNull(projects, k))
  }

  /** `handleCloseLightbox`. */
  function CloseLightbox(f: FolderState): FolderState {
    f.(selectedIndex := None, sourceRect := None)
  }

  /** `handleCloseComplete`. */
  function CloseComplete(f: FolderState): FolderState {
    f.(hiddenCardId := None)
  }

  /** The first half of `handleClose`: start closing and schedule the 500 ms timer. */
  function BeginClose(lb: LightboxState): LightboxState {
    lb.(isClosing := true, pendingCloseTimers := lb.pendingCloseTimers + 1)
  }

  /** The 500 ms callback of `handleClose` (before it calls onCloseComplete). */
  function CloseTimerFires(lb: LightboxState): LightboxState
    requires lb.pendingCloseTimers > 0
  {
    lb.(isClosing := false, shouldRender := false, animationPhase := Initial,
        pendingCloseTimers := lb.pendingCloseTimers - 1)
  }

  /** The inner requestAnimationFrame callback of the opening effect. */
  function FrameFires(lb: LightboxState): LightboxState
    requires lb.pendingFrames > 0
  {
    lb.(animationPhase := Animating, pendingFrames := lb.pendingFrames - 1)
  }

  /** The 700 ms callback of the opening effect. */
  function CompleteTimerFires(lb: LightboxState): LightboxState
    requires lb.completeTimerPending
  {
    lb.(animationPhase := Complete, completeTimerPending := false)
  }

  /** The 400 ms callback of the slide effect. */
  function SlideTimerFires(lb: LightboxState): LightboxState
    requires lb.slideTimer.Some?
  {
    lb.(internalIndex := lb.slideTimer.value, isSliding := false, slideTimer := None)
  }

  // ----------------------------------------------------------------- events

  datatype Key = Escape | ArrowRight | ArrowLeft | OtherKey

  datatype Event =
    | MouseEnter
    | MouseLeave
    | ClickCard(index: nat, cardMounted: bool)
    | ClickNext
    | ClickPrev
    | ClickDot(dot: nat)
    | ClickClose      // the close button or the backdrop
    | KeyDown(key: Key)
    | FrameTick
    | OpenTimer       // 700 ms
    | CloseTimer      // 500 ms

  /**
   * Which events can happen: a card exists for each preview, but it and the
   * folder itself are out of reach while the lightbox renders, because the
   * lightbox's full-screen backdrop lies over them (also while it fades out);
   * the backdrop and dots (one per project) exist while it renders; an arrow
   * button takes pointer events only in the complete phase, not while
   * closing and only when there is a project in its direction, and it is
   * disabled while sliding; only pending callbacks fire. Keys can always be
   * pressed.
   */
  predicate Enabled(g: GalleryState, projects: seq<Project>, e: Event) {
    var lb := g.lightbox;
    var navigable := Renders(g, projects) && lb.animationPhase == Complete && !lb.isClosing && !lb.isSliding;
    match e
    case ClickCard(index, _) => index < PreviewCount(projects) && !Renders(g, projects)
    case MouseEnter => !Renders(g, projects)
    case ClickNext => navigable && lb.internalIndex < |projects| - 1
    case ClickPrev => navigable && lb.internalIndex > 0
    case ClickDot(dot) => dot < |projects| && Renders(g, projects)
    case ClickClose => Renders(g, projects)
    case FrameTick => g.lightbox.pendingFrames > 0
    case OpenTimer => g.lightbox.completeTimerPending
    case CloseTimer => g.lightbox.pendingCloseTimers > 0
    case _ => true
  }

  /** The new state after handlers, then the re-render and its commits. */
  function Rerender(f: FolderState, lb: LightboxState): GalleryState {
    GalleryState(f, Settle(lb, PropsOf(f)))
  }

  /** A request from the lightbox reaches `handleNavigate`; no request changes nothing. */
  function Navigate(g: GalleryState, projects: seq<Project>, request: Option<nat>): GalleryState {
    match request
    case None => g
    case Some(k) => Rerender(NavigateTo(g.folder, projects, k), g.lightbox)
  }

  function Close(g: GalleryState): GalleryState {
    Rerender(CloseLightbox(g.folder), BeginClose(g.lightbox))
  }

  /** The keydown listener: ignored unless open, then Escape closes and the arrows navigate. */
  function KeyStep(g: GalleryState, projects: seq<Project>, key: Key): GalleryState {
    if !PropsOf(g.folder).isOpen then g
    else match key
      case Escape => Close(g)
      case ArrowRight => Navigate(g, projects, NextRequest(g.lightbox, |projects|))
      case ArrowLeft => Navigate(g, projects, PrevRequest(g.lightbox))
      case OtherKey => g
  }

  function Step(g: GalleryState, projects: seq<Project>, e: Event): GalleryState
    requires Enabled(g, projects, e)
  {
    var f, lb := g.folder, g.lightbox;
    match e
    case MouseEnter => Rerender(f.(isHovered := true), lb)
    case MouseLeave => Rerender(f.(isHovered := false), lb)
    case ClickCard(index, cardMounted) => Rerender(ProjectClick(f, projects, index, cardMounted), lb)
    case ClickNext => Navigate(g, projects, NextRequest(lb, |projects|))
    case ClickPrev => Navigate(g, projects, PrevRequest(lb))
    case ClickDot(dot) => Navigate(g, projects, DotRequest(lb, dot))
    case ClickClose => Close(g)
    case KeyDown(key) => KeyStep(g, projects, key)
    case FrameTick => Rerender(f, FrameFires(lb))
    case OpenTimer => Rerender(f, CompleteTimerFires(lb))
    case CloseTimer => Rerender(CloseComplete(f), CloseTimerFires(lb))
  }

  /** A run of events; an event that cannot happen in the state reached is skipped. */
  function Run(g: GalleryState, projects: seq<Project>, events: seq<Event>): GalleryState
    decreases |events|
  {
    if events == [] then g
    else
      var g' := if Enabled(g, projects, events[0]) then Step(g, projects, events[0]) else g;
      Run(g', projects, events[1..])
  }

  // -------------------------------------------------------------- invariant

  /**
   * While a project is selected, the only card that can be hidden is the
   * selected one. (It can also be none: navigation hides `id || null`, and a
   * 500 ms close callback left over from an earlier close clears it.)
   */
  predicate HidesOnlySelected(f: FolderState, projects: seq<Project>)
    requires f.selectedIndex.Some? ==> f.selectedIndex.value < |projects|
  {
    f.selectedIndex.Some? ==>
      f.hiddenCardId.None? || f.hiddenCardId == Some(projects[f.selectedIndex.value].id)
  }

  predicate Valid(g: GalleryState, projects: seq<Project>) {
    var f, lb := g.folder, g.lightbox;
    && (f.selectedIndex.Some? ==> f.selectedIndex.value < |projects|)
    && HidesOnlySelected(f, projects)
    && (f.sourceRect.Some? ==> f.sourceRect.value.serial < f.measurements)
    && (lb.internalIndex < |projects| || lb.internalIndex == 0)
    && (lb.shouldRender ==> |projects| > 0)
    && Quiescent(lb, PropsOf(f))
  }

  /** Whether preview card `j` is made invisible (`hiddenCardId === project.id`). */
  predicate CardHidden(f: FolderState, projects: seq<Project>, j: nat)
    requires j < |projects|
  {
    f.hiddenCardId == Some(projects[j].id)
  }

  /** The lightbox draws something: `shouldRender` and `projects[internalIndex]` exists. */
  predicate Renders(g: GalleryState, projects: seq<Project>) {
    g.lightbox.shouldRender && g.lightbox.internalIndex < |projects|
  }
}
