/** The browser's zoom stepping and the inspect-element flags of
    src/js/browser/functions.ts. Zoom factors are integer percentages. */
module Functions {
  import opened Wrappers

  /** `zoomSteps`, in percent. */
  const ZoomSteps: seq<int> := [25, 50, 75, 100, 125, 150, 175, 200]

  /** `currentStep` after `zoomIn`. */
  function ZoomInStep(step: nat): (r: nat)
    requires step < |ZoomSteps|
    ensures r < |ZoomSteps|
    ensures step < |ZoomSteps| - 1 ==> r == step + 1
    ensures step == |ZoomSteps| - 1 ==> r == step
  {
    if step < |ZoomSteps| - 1 then step + 1 else step
  }

  /** `currentStep` after `zoomOut`. */
  function ZoomOutStep(step: nat): (r: nat)
    requires step < |ZoomSteps|
    ensures r < |ZoomSteps|
    ensures step > 0 ==> r == step - 1
    ensures step == 0 ==> r == 0
  {
    if step > 0 then step - 1 else step
  }

  /** From an interior step, zooming in and back out returns to it, and so
      does zooming out and back in. */
  lemma ZoomInOut(step: nat)
    requires 0 < step < |ZoomSteps| - 1
    ensures ZoomOutStep(ZoomInStep(step)) == step
    ensures ZoomInStep(ZoomOutStep(step)) == step
  {
  }

  /** Zooming in never lowers the factor and zooming out never raises it. */
  lemma ZoomMonotone(step: nat)
    requires step < |ZoomSteps|
    ensures ZoomSteps[ZoomOutStep(step)] <= ZoomSteps[step] <= ZoomSteps[ZoomInStep(step)]
  {
  }

  /** The initial zoom level (100%) is not the factor of the initial step
      (125%): the first `zoomOut` therefore shows no change and the first
      `zoomIn` jumps to 150%. */
  lemma InitialZoomMismatch()
    ensures ZoomSteps[InitialStep] != InitialZoom
    ensures ZoomSteps[ZoomOutStep(InitialStep)] == InitialZoom
    ensures ZoomSteps[ZoomInStep(InitialStep)] == 150
  {
  }

  const InitialStep: nat := 4
  const InitialZoom: int := 100

  /** The three inspect-element flags. */
  datatype Flags = Flags(devToggle: bool, loaded: bool, injecting: bool)

  /** The flags never claim the script both loaded and still injecting. */
  predicate Consistent(f: Flags) {
    !(f.loaded && f.injecting)
  }

  /** How `injectErudaScript` settles at once, or starts a load. */
  datatype InjectStart = AlreadyLoaded | AlreadyInjecting | Started

  function InjectStartOf(f: Flags): InjectStart {
    if f.loaded then AlreadyLoaded else if f.injecting then AlreadyInjecting else Started
  }

  /** The flags after `injectErudaScript` is entered: the script is then
      loaded or a load is in flight, so entering again starts nothing. */
  function AfterInjectStart(f: Flags): (g: Flags)
    ensures InjectStartOf(f) != Started ==> g == f
    ensures InjectStartOf(f) == Started ==> g == f.(injecting := true)
    ensures g.loaded == f.loaded && g.devToggle == f.devToggle
    ensures (g.loaded || g.injecting) && InjectStartOf(g) != Started
    ensures Consistent(f) ==> Consistent(g)
  {
    if f.loaded || f.injecting then f else f.(injecting := true)
  }

  /** The script's `onload`. */
  function AfterLoad(f: Flags): Flags {
    f.(loaded := true, injecting := false)
  }

  /** The script's `onerror`: `loaded` is left alone. */
  function AfterError(f: Flags): Flags {
    f.(injecting := false)
  }

  /** The `then` of `inspectElement`: shows the console when it was hidden,
      hides it otherwise, and flips the toggle. */
  function AfterToggle(f: Flags): Flags {
    f.(devToggle := !f.devToggle)
  }

  /** The frame's `unload`. */
  function AfterUnload(f: Flags): (g: Flags)
    ensures !g.devToggle && !g.loaded && !g.injecting
    ensures Consistent(g) && InjectStartOf(g) == Started
  {
    Flags(false, false, false)
  }

  /** Every transition keeps the flags consistent. */
  lemma TransitionsConsistent(f: Flags)
    requires Consistent(f)
    ensures Consistent(AfterInjectStart(f)) && Consistent(AfterLoad(f)) && Consistent(AfterError(f))
    ensures Consistent(AfterToggle(f)) && Consistent(AfterUnload(f))
  {
  }

  /** Entering `injectErudaScript` twice changes the flags no more than
      entering it once. */
  lemma InjectStartIdempotent(f: Flags)
    ensures AfterInjectStart(AfterInjectStart(f)) == AfterInjectStart(f)
  {
  }

  /** Only the load callback marks the script loaded, and no callback
      other than unload forgets it. */
  lemma LoadedOnlyByLoad(f: Flags)
    ensures AfterInjectStart(f).loaded == f.loaded
    ensures AfterError(f).loaded == f.loaded && AfterToggle(f).loaded == f.loaded
    ensures AfterLoad(f).loaded
  {
  }

  /** Two inspect clicks while the script loads: the second settles at once
      and toggles, the first toggles again when the script arrives, so the
      console ends as it started. */
  lemma DoubleClickWhileLoading(f: Flags)
    requires !f.loaded && !f.injecting
    ensures InjectStartOf(f) == Started
    ensures InjectStartOf(AfterInjectStart(f)) == AlreadyInjecting
    ensures AfterToggle(AfterLoad(AfterToggle(AfterInjectStart(AfterInjectStart(f))))).devToggle == f.devToggle
  {
  }

  /** What makes `inspectElement` return before injecting. */
  datatype Skip = NoFrame | ForbiddenSrc | StillLoading

  /** `forbiddenSrcs`; `None` is the null entry. */
  predicate IsForbiddenSrc(href: Option<string>) {
    href.None? || href.value in ["about:blank", "a%60owt8bnalk", "a`owt8bnalk"]
  }

  class Functions {
    var zoomLevel: int
    var currentStep: nat
    var devToggle: bool
    var erudaScriptLoaded: bool
    var erudaScriptInjecting: bool

    function FlagState(): Flags
      reads this
    {
      Flags(devToggle, erudaScriptLoaded, erudaScriptInjecting)
    }

    ghost predicate Valid()
      reads this
    {
      currentStep < |ZoomSteps| && Consistent(FlagState())
    }

    constructor ()
      ensures Valid() && zoomLevel == InitialZoom && currentStep == InitialStep
      ensures FlagState() == Flags(false, false, false)
    {
      zoomLevel := InitialZoom;
      currentStep := InitialStep;
      devToggle := false;
      erudaScriptLoaded := false;
      erudaScriptInjecting := false;
    }

    method ZoomIn()
      requires Valid()
      modifies this
      ensures Valid() && currentStep == ZoomInStep(old(currentStep)) && zoomLevel == ZoomSteps[currentStep]
      ensures FlagState() == old(FlagState())
    {
      if currentStep < |ZoomSteps| - 1 {
        currentStep := currentStep + 1;
      }
      zoomLevel := ZoomSteps[currentStep];
    }

    method ZoomOut()
      requires Valid()
      modifies this
      ensures Valid() && currentStep == ZoomOutStep(old(currentStep)) && zoomLevel == ZoomSteps[currentStep]
      ensures FlagState() == old(FlagState())
    {
      if currentStep > 0 {
        currentStep := currentStep - 1;
      }
      zoomLevel := ZoomSteps[currentStep];
    }

    /** `injectErudaScript` up to the point where it waits for the script. */
    method InjectErudaScript() returns (r: InjectStart)
      requires Valid()
      modifies this
      ensures Valid() && r == InjectStartOf(old(FlagState()))
      ensures FlagState() == AfterInjectStart(old(FlagState()))
      ensures zoomLevel == old(zoomLevel) && currentStep == old(currentStep)
    {
      if erudaScriptLoaded {
        return AlreadyLoaded;
      }
      if erudaScriptInjecting {
        return AlreadyInjecting;
      }
      erudaScriptInjecting := true;
      return Started;
    }

    method OnScriptLoad()
      requires Valid()
      modifies this
      ensures Valid() && FlagState() == AfterLoad(old(FlagState()))
      ensures zoomLevel == old(zoomLevel) && currentStep == old(currentStep)
    {
      erudaScriptLoaded := true;
      erudaScriptInjecting := false;
    }

    method OnScriptError()
      requires Valid()
      modifies this
      ensures Valid() && FlagState() == AfterError(old(FlagState()))
      ensures zoomLevel == old(zoomLevel) && currentStep == old(currentStep)
    {
      erudaScriptInjecting := false;
    }

    /** The `then` of `inspectElement`; `show` is whether the show script
        (rather than the hide script) is injected. */
    method OnInjected() returns (show: bool)
      requires Valid()
      modifies this
      ensures Valid() && show == !old(devToggle) && FlagState() == AfterToggle(old(FlagState()))
      ensures zoomLevel == old(zoomLevel) && currentStep == old(currentStep)
    {
      show := !devToggle;
      devToggle := !devToggle;
    }

    method OnUnload()
      requires Valid()
      modifies this
      ensures Valid() && FlagState() == AfterUnload(old(FlagState()))
      ensures zoomLevel == old(zoomLevel) && currentStep == old(currentStep)
    {
      devToggle := false;
      erudaScriptLoaded := false;
      erudaScriptInjecting := false;
    }

    /** `inspectElement` up to the injection: it skips a missing frame, a
        forbidden location and a document still loading, and otherwise
        enters `injectErudaScript`. */
    method InspectElement(frameAvailable: bool, href: Option<string>, loading: bool)
      returns (skipped: Option<Skip>, start: Option<InjectStart>)
      requires Valid()
      modifies this
      ensures Valid()
      ensures !frameAvailable ==> skipped == Some(NoFrame) && start.None? && FlagState() == old(FlagState())
      ensures frameAvailable && IsForbiddenSrc(href) ==> skipped == Some(ForbiddenSrc) && start.None? && FlagState() == old(FlagState())
      ensures frameAvailable && !IsForbiddenSrc(href) && loading ==>
        skipped == Some(StillLoading) && start.None? && FlagState() == old(FlagState())
      ensures frameAvailable && !IsForbiddenSrc(href) && !loading ==>
        skipped.None? && start == Some(InjectStartOf(old(FlagState()))) && FlagState() == AfterInjectStart(old(FlagState()))
      ensures zoomLevel == old(zoomLevel) && currentStep == old(currentStep)
    {
      if !frameAvailable {
        return Some(NoFrame), None;
      }
      if IsForbiddenSrc(href) {
        return Some(ForbiddenSrc), None;
      }
      if loading {
        return Some(StillLoading), None;
      }
      var r := InjectErudaScript();
      return None, Some(r);
    }
  }
}
