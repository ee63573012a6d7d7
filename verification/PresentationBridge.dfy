/** The bridge's per-task presentation state: fixed arrays with depths, changed marker by
    marker and unwound when the task ends. */
module PresentationBridge {
  import opened PresentationScopes

  function TaskStart(frame: Frame, projections: int, projectionLimit: int): (s: State)
    ensures Settled(s) && InStep(s) && s.marked == {}
  {
    State(NEUTRAL, Auto, frame, [], 0, [], 0, {}, 0, 0, projections, projectionLimit, Counters(0, 0, 0, 0))
  }

  /** One element of the HUD array: its flag outlives the scopes that use it. */
  datatype HudSlot = HudSlot(scope: HudScope, pushedProjection: bool)

  function Scopes(slots: seq<HudSlot>): (scopes: seq<HudScope>)
    ensures |scopes| == |slots|
  {
    seq(|slots|, i requires 0 <= i < |slots| => slots[i].scope)
  }

  function Marks(slots: seq<HudSlot>): (marked: set<nat>) {
    set i: nat | i < |slots| && slots[i].pushedProjection
  }

  class Bridge {
    var shared: Shared
    var rdpRect: Aspect
    var frame: Frame
    const aspectScopes: array<AspectScope>
    var aspectDepth: nat
    var rejectedAspects: nat
    const hudScopes: array<HudSlot>
    var hudDepth: nat
    var rejectedHuds: nat
    var widgets: nat
    var rejectedWidgets: nat
    var projections: int
    const projectionLimit: int
    var counters: Counters

    ghost predicate Valid()
      reads this
    {
      && aspectScopes.Length == ASPECT_CAPACITY && aspectDepth <= ASPECT_CAPACITY
      && hudScopes.Length == HUD_CAPACITY && hudDepth <= HUD_CAPACITY
      && (aspectScopes as object) != hudScopes
    }

    ghost function Value(): (s: State)
      requires Valid()
      reads this, aspectScopes, hudScopes
    {
      State(shared, rdpRect, frame, aspectScopes[..aspectDepth], rejectedAspects,
            Scopes(hudScopes[..hudDepth]), rejectedHuds,
            Marks(hudScopes[..]), widgets, rejectedWidgets, projections, projectionLimit, counters)
    }

    /** A task starts from fresh state. */
    constructor (frame: Frame, projections: int, projectionLimit: int)
      ensures Valid() && fresh(aspectScopes) && fresh(hudScopes)
      ensures Value() == TaskStart(frame, projections, projectionLimit)
      ensures Settled(Value()) && InStep(Value())
    {
      shared := NEUTRAL;
      rdpRect := Auto;
      this.frame := frame;
      aspectScopes := new AspectScope[ASPECT_CAPACITY](_ => AspectScope(FixedUi, NEUTRAL));
      aspectDepth := 0;
      rejectedAspects := 0;
      hudScopes := new HudSlot[HUD_CAPACITY](_ => HudSlot(HudScope(NEUTRAL, frame, false), false));
      hudDepth := 0;
      rejectedHuds := 0;
      widgets := 0;
      rejectedWidgets := 0;
      this.projections := projections;
      this.projectionLimit := projectionLimit;
      counters := Counters(0, 0, 0, 0);
    }

    method OnAspectBegin(kind: AspectKind, token: nat)
      requires Valid()
      modifies this, aspectScopes
      ensures Valid() && Value() == BeginAspect(old(Value()), kind, token)
    {
      if rejectedAspects != 0 || aspectDepth >= aspectScopes.Length {
        rejectedAspects := rejectedAspects + 1;
        return;
      }
      aspectScopes[aspectDepth] := AspectScope(kind, shared);
      aspectDepth := aspectDepth + 1;
      if kind == BackgroundAspect {
        shared := shared.(rect := Stretch, fill := if token <= 2 then token else 0);
      } else {
        shared := Shared(true, Adjust, Adjust, 0);
      }
      rdpRect := shared.rect;
    }

    method OnAspectEnd(kind: AspectKind)
      requires Valid()
      modifies this
      ensures Valid() && Value() == EndAspect(old(Value()), kind)
    {
      if rejectedAspects != 0 {
        rejectedAspects := rejectedAspects - 1;
      } else if aspectDepth > 0 && aspectScopes[aspectDepth - 1].kind == kind {
        TakeAspect();
      }
    }

    method TakeAspect()
      requires Valid() && aspectDepth > 0
      modifies this
      ensures Valid() && Value() == PopAspect(old(Value())) && aspectDepth == old(aspectDepth) - 1
    {
      aspectDepth := aspectDepth - 1;
      var scope := aspectScopes[aspectDepth];
      shared := scope.previous;
      rdpRect := shared.rect;
      assert aspectScopes[..aspectDepth] == aspectScopes[..aspectDepth + 1][..aspectDepth];
    }

    method OnHudBegin(variant: HudVariant, to: Frame, overscan: int)
      requires Valid()
      modifies this, hudScopes
      ensures Valid() && Value() == BeginHud(old(Value()), variant, to, overscan)
    {
      if rejectedHuds != 0 || hudDepth >= hudScopes.Length
         || (variant == ReferencePass && projections >= projectionLimit) {
        rejectedHuds := rejectedHuds + 1;
        return;
      }
      hide Scopes, Marks, MarkedBy;
      var marked := Occupy(variant);
      EnterHud(variant, to, overscan, marked);
    }

    /** The pass takes effect: frame, projection, aspect and counters. */
    method EnterHud(variant: HudVariant, to: Frame, overscan: int, marked: bool)
      requires Valid()
      modifies this
      ensures Valid() && hudDepth == old(hudDepth)
      ensures var s, reference := old(Value()), variant == ReferencePass;
              Value() == s.(
                shared := if reference then s.shared.(rect := Adjust, fill := 0) else s.shared,
                rdpRect := if reference then Adjust else s.rdpRect,
                frame := Frame(if marked then overscan else to.scissor,
                               if variant == Anchored then to.rect else s.frame.rect, to.clip),
                projections := if reference then s.projections + 1 else s.projections,
                counters := s.counters.(scissorPushes := s.counters.scissorPushes + 1,
                                        projectionPushes := s.counters.projectionPushes + if reference then 1 else 0))
    {
      hide Scopes, Marks;
      if variant == Anchored {
        frame := frame.(rect := to.rect);
      }
      if variant == ReferencePass {
        projections := projections + 1;
        counters := counters.(projectionPushes := counters.projectionPushes + 1);
        rdpRect := Adjust;
        shared := shared.(rect := Adjust, fill := 0);
      }
      counters := counters.(scissorPushes := counters.scissorPushes + 1);
      frame := frame.(clip := to.clip, scissor := if marked then overscan else to.scissor);
    }

    /** Records the state to restore in the next slot, whose flag is set by a reference pass and otherwise left alone.
        */
    method Occupy(variant: HudVariant) returns (marked: bool)
      requires Valid() && hudDepth < hudScopes.Length
      modifies this`hudDepth, hudScopes
      ensures Valid() && hudDepth == old(hudDepth) + 1
      ensures Scopes(hudScopes[..hudDepth])
           == old(Scopes(hudScopes[..hudDepth])) + [HudScope(shared, frame, variant == Anchored)]
      ensures Marks(hudScopes[..]) == old(MarkedBy(Value(), variant))
      ensures marked == (old(hudDepth) in Marks(hudScopes[..]))
    {
      hide Scopes, Marks;
      ghost var before := hudScopes[..];
      var slot := hudScopes[hudDepth].(scope := HudScope(shared, frame, variant == Anchored));
      if variant == ReferencePass {
        slot := slot.(pushedProjection := true);
      }
      hudScopes[hudDepth] := slot;
      assert hudScopes[..] == before[hudDepth := slot];
      SlotTaken(before, hudDepth, slot);
      hudDepth := hudDepth + 1;
      marked := slot.pushedProjection;
    }

    method OnHudEnd()
      requires Valid()
      modifies this
      ensures Valid() && Value() == EndHud(old(Value()))
    {
      if rejectedHuds != 0 {
        rejectedHuds := rejectedHuds - 1;
      } else if hudDepth > 0 {
        var slot := hudScopes[hudDepth - 1];
        TakeHud();
        if slot.pushedProjection {
          rdpRect := slot.scope.previous.rect;
        }
      }
    }

    method TakeHud()
      requires Valid() && hudDepth > 0
      modifies this
      ensures Valid() && Value() == LeaveHud(old(Value())) && hudDepth == old(hudDepth) - 1
    {
      hide Scopes, Marks;
      SlotLeft(hudScopes[..], hudDepth - 1);
      assert hudScopes[..][..hudDepth] == hudScopes[..hudDepth]
        && hudScopes[..][..hudDepth - 1] == hudScopes[..hudDepth - 1];
      hudDepth := hudDepth - 1;
      var slot := hudScopes[hudDepth];
      counters := counters.(scissorPops := counters.scissorPops + 1);
      if slot.pushedProjection {
        projections := projections - 1;
        counters := counters.(projectionPops := counters.projectionPops + 1);
      }
      frame := frame.(scissor := slot.scope.frame.scissor, clip := slot.scope.frame.clip);
      if slot.scope.movedRect {
        frame := frame.(rect := slot.scope.frame.rect);
      }
      shared := slot.scope.previous;
    }

    method OnWidget(begin: bool, transformValid: bool)
      requires Valid()
      modifies this
      ensures Valid()
      ensures Value() == if begin then BeginWidget(old(Value()), transformValid) else EndWidget(old(Value()))
    {
      if begin {
        if rejectedWidgets != 0 || widgets >= WIDGET_CAPACITY || !transformValid {
          rejectedWidgets := rejectedWidgets + 1;
          return;
        }
        widgets := widgets + 1;
        counters := counters.(scissorPushes := counters.scissorPushes + 1);
      } else if rejectedWidgets != 0 {
        rejectedWidgets := rejectedWidgets - 1;
      } else if widgets > 0 {
        widgets := widgets - 1;
        counters := counters.(scissorPops := counters.scissorPops + 1);
      }
    }

    /** One marker of the display list. */
    method OnMarker(marker: Marker)
      requires Valid()
      modifies this, aspectScopes, hudScopes
      ensures Valid() && Value() == Apply(old(Value()), marker)
    {
      match marker
      case AspectBegin(kind, token) => OnAspectBegin(kind, token);
      case AspectEnd(kind) => OnAspectEnd(kind);
      case HudBegin(variant, to, overscan) => OnHudBegin(variant, to, overscan);
      case HudEnd => OnHudEnd();
      case WidgetBegin(valid) => OnWidget(true, valid);
      case WidgetEnd => OnWidget(false, false);
    }

    /** All markers of a task, in order. */
    method OnMarkers(markers: seq<Marker>)
      requires Valid()
      modifies this, aspectScopes, hudScopes
      ensures Valid() && Value() == ApplyAll(old(Value()), markers)
    {
      hide Apply;
      for i := 0 to |markers|
        invariant Valid() && Value() == ApplyAll(old(Value()), markers[..i])
      {
        assert markers[..i + 1][..i] == markers[..i];
        OnMarker(markers[i]);
      }
      assert markers[..|markers|] == markers;
    }

    method UnwindWidgets()
      requires Valid()
      modifies this
      ensures Valid() && Value() == DrainWidgets(old(Value()))
    {
      hide DrainWidgets, Scopes, Marks;
      DrainWidgetsUnfolds(Value());
      while widgets > 0
        invariant Valid() && DrainWidgets(Value()) == DrainWidgets(old(Value()))
      {
        DrainWidgetsUnfolds(Value());
        widgets := widgets - 1;
        counters := counters.(scissorPops := counters.scissorPops + 1);
      }
      DrainWidgetsUnfolds(Value());
    }

    method UnwindHuds()
      requires Valid()
      modifies this
      ensures Valid() && Value() == DrainHuds(old(Value()))
    {
      hide DrainHuds, LeaveHud, Marks;
      while hudDepth > 0
        invariant Valid() && DrainHuds(Value()) == DrainHuds(old(Value()))
      {
        DrainHudsUnfolds(Value());
        var slot := hudScopes[hudDepth - 1];
        TakeHud();
        rdpRect := slot.scope.previous.rect;
      }
      DrainHudsUnfolds(Value());
    }

    method UnwindAspects()
      requires Valid()
      modifies this
      ensures Valid() && Value() == DrainAspects(old(Value()))
    {
      hide DrainAspects, PopAspect, Marks, Scopes;
      while aspectDepth > 0
        invariant Valid() && DrainAspects(Value()) == DrainAspects(old(Value()))
      {
        DrainAspectsUnfolds(Value());
        TakeAspect();
      }
      DrainAspectsUnfolds(Value());
    }

    /** The unwind at the end of a task: widgets, then HUD scopes, then aspect scopes. */
    method EndTask()
      requires Valid()
      modifies this
      ensures Valid() && Value() == Unwind(old(Value()))
    {
      hide DrainWidgets, DrainHuds, DrainAspects, Marks, Scopes;
      UnwindWidgets();
      UnwindHuds();
      UnwindAspects();
      if shared.rect != Auto {
        rdpRect := Auto;
      }
      shared := NEUTRAL;
    }
  }

  lemma DrainWidgetsUnfolds(s: State)
    ensures DrainWidgets(s) == if s.widgets == 0 then s else DrainWidgets(PopWidget(s))
  {
  }

  lemma DrainHudsUnfolds(s: State)
    ensures DrainHuds(s)
         == if s.huds == [] then s else DrainHuds(LeaveHud(s).(rdpRect := s.huds[|s.huds| - 1].previous.rect))
  {
  }

  lemma DrainAspectsUnfolds(s: State)
    ensures DrainAspects(s) == if s.aspects == [] then s else DrainAspects(PopAspect(s))
  {
  }

  /** Leaving the innermost slot: the scopes before it, its scope, and whether it is marked. */
  lemma SlotLeft(slots: seq<HudSlot>, d: nat)
    requires d < |slots|
    ensures Scopes(slots[..d + 1])[..d] == Scopes(slots[..d]) && Scopes(slots[..d + 1])[d] == slots[d].scope
    ensures d in Marks(slots) <==> slots[d].pushedProjection
  {
  }

  /** Writing one slot adds its scope and changes no mark but its own. */
  lemma SlotTaken(slots: seq<HudSlot>, d: nat, slot: HudSlot)
    requires d < |slots| && (slots[d].pushedProjection ==> slot.pushedProjection)
    ensures d in Marks(slots) <==> slots[d].pushedProjection
    ensures Scopes(slots[d := slot][..d + 1]) == Scopes(slots[..d]) + [slot.scope]
    ensures Marks(slots[d := slot]) == if slot.pushedProjection then Marks(slots) + {d} else Marks(slots)
  {
  }

  /** A whole task: whatever its markers, scissor pushes equal pops; projections do exactly when no HUD slot changes
      from reference passes to others; and the RDP ends on the automatic rectangle aspect exactly when `EndsAutomatic`
      says. */
  method RunTask(markers: seq<Marker>, frame: Frame, projections: int, projectionLimit: int)
    returns (counters: Counters, rdpRect: Aspect)
    ensures counters.scissorPushes == counters.scissorPops
    ensures counters.projectionPushes == counters.projectionPops
      <==> SlotsKeepKind(TaskStart(frame, projections, projectionLimit), markers)
    ensures rdpRect == Auto <==> EndsAutomatic(TaskStart(frame, projections, projectionLimit), markers)
  {
    var bridge := new Bridge(frame, projections, projectionLimit);
    ghost var start := bridge.Value();
    bridge.OnMarkers(markers);
    bridge.EndTask();
    hide Unwind, ApplyAll, SlotsKeepKind, EndsAutomatic;
    UnwindBalances(start, markers);
    ProjectionsBalanceExactly(start, markers);
    TaskAspect(start, markers);
    counters := bridge.counters;
    rdpRect := bridge.rdpRect;
  }
}
