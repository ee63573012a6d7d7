/** Aspect, HUD-pass and HUD-widget scopes of one display-list task. Each kind has a
    bounded stack and a counter of rejected begins, so that an overflowed begin and
    its end cancel out instead of popping somebody else's scope. A HUD slot remembers
    for the rest of the task that a reference pass once used it. */
module PresentationScopes {

  const ASPECT_CAPACITY: nat := 16
  const HUD_CAPACITY: nat := 8
  const WIDGET_CAPACITY: nat := 4

  datatype Aspect = Auto | Adjust | Stretch

  datatype AspectKind = FramedResults | FixedUi | BackgroundAspect | TrackSelectLensFlare

  /** The reference pass keeps proportions; anchored passes move rectangles; the rest only clip. */
  datatype HudVariant = ReferencePass | Anchored | Plain

  /** The aspect state that aspect and HUD scopes share. */
  datatype Shared = Shared(overrideActive: bool, override: Aspect, rect: Aspect, fill: nat)

  const NEUTRAL: Shared := Shared(false, Auto, Auto, 0)

  /** Alignment and clip values, as opaque numbers. */
  datatype Frame = Frame(scissor: int, rect: int, clip: int)

  datatype AspectScope = AspectScope(kind: AspectKind, previous: Shared)

  datatype HudScope = HudScope(previous: Shared, frame: Frame, movedRect: bool)

  datatype Marker =
    | AspectBegin(kind: AspectKind, token: nat)
    | AspectEnd(kind: AspectKind)
    | HudBegin(variant: HudVariant, frame: Frame, overscan: int)
    | HudEnd
    | WidgetBegin(valid: bool)
    | WidgetEnd

  /** How often RT64's scissor and projection stacks were pushed and popped. */
  datatype Counters = Counters(scissorPushes: nat, scissorPops: nat, projectionPushes: nat, projectionPops: nat)

  /** `rdpRect` is the rectangle aspect that the RDP was last told; `projections` is the size of
      the projection stack and `projectionLimit` its capacity. `marked` holds the HUD slots whose
      "pushed a projection" flag is set: a reference pass sets it, and nothing clears it before the task ends. */
  datatype State = State(
    shared: Shared, rdpRect: Aspect, frame: Frame,
    aspects: seq<AspectScope>, rejectedAspects: nat,
    huds: seq<HudScope>, rejectedHuds: nat, marked: set<nat>,
    widgets: nat, rejectedWidgets: nat,
    projections: int, projectionLimit: int, counters: Counters)

  /** `RejectedMarkerScopes::reject_begin`. */
  predicate RejectBegin(rejected: nat, depth: nat, capacity: nat) {
    rejected != 0 || depth >= capacity
  }

  // ---------------------------------------------------------------------
  // One marker
  // ---------------------------------------------------------------------

  function Entered(shared: Shared, kind: AspectKind, token: nat): (r: Shared) {
    if kind == BackgroundAspect then shared.(rect := Stretch, fill := if token <= 2 then token else 0)
    else Shared(true, Adjust, Adjust, 0)
  }

  function BeginAspect(s: State, kind: AspectKind, token: nat): (r: State) {
    if RejectBegin(s.rejectedAspects, |s.aspects|, ASPECT_CAPACITY) then s.(rejectedAspects := s.rejectedAspects + 1)
    else
      var shared := Entered(s.shared, kind, token);
      s.(aspects := s.aspects + [AspectScope(kind, s.shared)], shared := shared, rdpRect := shared.rect)
  }

  function EndAspect(s: State, kind: AspectKind): (r: State) {
    if s.rejectedAspects != 0 then s.(rejectedAspects := s.rejectedAspects - 1)
    else if |s.aspects| > 0 && s.aspects[|s.aspects| - 1].kind == kind then PopAspect(s)
    else s
  }

  function PopAspect(s: State): (r: State)
    requires |s.aspects| > 0
  {
    var scope := s.aspects[|s.aspects| - 1];
    s.(aspects := s.aspects[..|s.aspects| - 1], shared := scope.previous, rdpRect := scope.previous.rect)
  }

  predicate HudRejected(s: State, variant: HudVariant) {
    || RejectBegin(s.rejectedHuds, |s.huds|, HUD_CAPACITY)
    || (variant == ReferencePass && s.projections >= s.projectionLimit)
  }

  /** The slots marked once a pass of this variant has begun. */
  function MarkedBy(s: State, variant: HudVariant): (m: set<nat>) {
    if variant == ReferencePass then s.marked + {|s.huds|} else s.marked
  }

  function BeginHud(s: State, variant: HudVariant, frame: Frame, overscan: int): (r: State) {
    if HudRejected(s, variant) then s.(rejectedHuds := s.rejectedHuds + 1)
    else
      var reference := variant == ReferencePass;
      var marked := MarkedBy(s, variant);
      s.(huds := s.huds + [HudScope(s.shared, s.frame, variant == Anchored)],
         marked := marked,
         shared := if reference then s.shared.(rect := Adjust, fill := 0) else s.shared,
         rdpRect := if reference then Adjust else s.rdpRect,
         frame := Frame(if |s.huds| in marked then overscan else frame.scissor,
                        if variant == Anchored then frame.rect else s.frame.rect, frame.clip),
         projections := if reference then s.projections + 1 else s.projections,
         counters := s.counters.(scissorPushes := s.counters.scissorPushes + 1,
                                 projectionPushes := s.counters.projectionPushes + if reference then 1 else 0))
  }

  /** The innermost HUD slot is marked. */
  predicate TopMarked(s: State)
    requires |s.huds| > 0
  {
    |s.huds| - 1 in s.marked
  }

  /** The scope's scissor, alignment and clip values are taken back, and a projection if the slot is marked. */
  function LeaveHud(s: State): (r: State)
    requires |s.huds| > 0
  {
    var scope := s.huds[|s.huds| - 1];
    s.(huds := s.huds[..|s.huds| - 1],
       shared := scope.previous,
       frame := Frame(scope.frame.scissor,
                      if scope.movedRect then scope.frame.rect else s.frame.rect, scope.frame.clip),
       projections := if TopMarked(s) then s.projections - 1 else s.projections,
       counters := s.counters.(scissorPops := s.counters.scissorPops + 1,
                               projectionPops := s.counters.projectionPops + if TopMarked(s) then 1 else 0))
  }

  /** An ordinary end tells the RDP its rectangle aspect only when the slot is marked. */
  function EndHud(s: State): (r: State) {
    if s.rejectedHuds != 0 then s.(rejectedHuds := s.rejectedHuds - 1)
    else if |s.huds| > 0 then
      var scope := s.huds[|s.huds| - 1];
      LeaveHud(s).(rdpRect := if TopMarked(s) then scope.previous.rect else s.rdpRect)
    else s
  }

  function BeginWidget(s: State, valid: bool): (r: State) {
    if RejectBegin(s.rejectedWidgets, s.widgets, WIDGET_CAPACITY) || !valid then
      s.(rejectedWidgets := s.rejectedWidgets + 1)
    else s.(widgets := s.widgets + 1, counters := s.counters.(scissorPushes := s.counters.scissorPushes + 1))
  }

  function EndWidget(s: State): (r: State) {
    if s.rejectedWidgets != 0 then s.(rejectedWidgets := s.rejectedWidgets - 1)
    else if s.widgets > 0 then PopWidget(s)
    else s
  }

  function PopWidget(s: State): (r: State)
    requires s.widgets > 0
  {
    s.(widgets := s.widgets - 1, counters := s.counters.(scissorPops := s.counters.scissorPops + 1))
  }

  function Apply(s: State, marker: Marker): (r: State) {
    match marker
    case AspectBegin(kind, token) => BeginAspect(s, kind, token)
    case AspectEnd(kind) => EndAspect(s, kind)
    case HudBegin(variant, frame, overscan) => BeginHud(s, variant, frame, overscan)
    case HudEnd => EndHud(s)
    case WidgetBegin(valid) => BeginWidget(s, valid)
    case WidgetEnd => EndWidget(s)
  }

  function ApplyAll(s: State, markers: seq<Marker>): (r: State) {
    if markers == [] then s else Apply(ApplyAll(s, markers[..|markers| - 1]), markers[|markers| - 1])
  }

  lemma {:induction false} ApplyAllConcat(s: State, a: seq<Marker>, b: seq<Marker>)
    ensures ApplyAll(s, a + b) == ApplyAll(ApplyAll(s, a), b)
  {
    hide Apply;
    if b == [] {
      assert a + b == a;
    } else {
      assert (a + b)[..|a + b| - 1] == a + b[..|b| - 1];
      ApplyAllConcat(s, a, b[..|b| - 1]);
    }
  }

  // ---------------------------------------------------------------------
  // End of task
  // ---------------------------------------------------------------------

  function DrainWidgets(s: State): (r: State)
    decreases s.widgets
  {
    if s.widgets == 0 then s else DrainWidgets(PopWidget(s))
  }

  /** At task end every HUD scope, reference or not, tells the RDP the restored aspect. */
  function DrainHuds(s: State): (r: State)
    decreases |s.huds|
  {
    if s.huds == [] then s
    else DrainHuds(LeaveHud(s).(rdpRect := s.huds[|s.huds| - 1].previous.rect))
  }

  function DrainAspects(s: State): (r: State)
    decreases |s.aspects|
  {
    if s.aspects == [] then s else DrainAspects(PopAspect(s))
  }

  function Neutralised(s: State): (r: State) {
    s.(rdpRect := if s.shared.rect != Auto then Auto else s.rdpRect, shared := NEUTRAL)
  }

  function Unwind(s: State): (r: State) {
    Neutralised(DrainAspects(DrainHuds(DrainWidgets(s))))
  }

  // ---------------------------------------------------------------------
  // Pushes and pops
  // ---------------------------------------------------------------------

  /** How many of the first `n` HUD slots are marked. */
  function MarkedBelow(marked: set<nat>, n: nat): (k: nat) {
    if n == 0 then 0 else MarkedBelow(marked, n - 1) + if n - 1 in marked then 1 else 0
  }

  /** A begin without a projection of its own, accepted into a marked slot: its end will pop a projection. */
  predicate StaleBegin(s: State, marker: Marker) {
    marker.HudBegin? && marker.variant != ReferencePass && !HudRejected(s, marker.variant) && |s.huds| in s.marked
  }

  function StaleBegins(s: State, markers: seq<Marker>): (n: nat) {
    if markers == [] then 0
    else
      var front := markers[..|markers| - 1];
      StaleBegins(s, front) + if StaleBegin(ApplyAll(s, front), markers[|markers| - 1]) then 1 else 0
  }

  /** Every outstanding scissor push belongs to a recorded scope. */
  predicate ScissorBalanced(s: State) {
    s.counters.scissorPushes == s.counters.scissorPops + |s.huds| + s.widgets
  }

  /** The projection pops so far and those still due, against the pushes. */
  function ProjectionDebt(s: State): (d: int) {
    s.counters.projectionPops + MarkedBelow(s.marked, |s.huds|) - s.counters.projectionPushes
  }

  lemma {:induction false} MarkedAbove(a: set<nat>, b: set<nat>, n: nat)
    requires forall k :: 0 <= k < n ==> (k in a <==> k in b)
    ensures MarkedBelow(a, n) == MarkedBelow(b, n)
  {
    if n > 0 { MarkedAbove(a, b, n - 1); }
  }

  /** Each marker keeps the scissor balance, and adds to the projection debt exactly when it is a stale begin. */
  lemma ApplyAccounts(s: State, marker: Marker)
    requires ScissorBalanced(s)
    ensures ScissorBalanced(Apply(s, marker))
    ensures ProjectionDebt(Apply(s, marker)) == ProjectionDebt(s) + if StaleBegin(s, marker) then 1 else 0
  {
    if marker.HudBegin? && !HudRejected(s, marker.variant) {
      MarkedAbove(s.marked, MarkedBy(s, marker.variant), |s.huds|);
    }
  }

  lemma {:induction false} ApplyAllAccounts(s: State, markers: seq<Marker>)
    requires ScissorBalanced(s)
    ensures ScissorBalanced(ApplyAll(s, markers))
    ensures ProjectionDebt(ApplyAll(s, markers)) == ProjectionDebt(s) + StaleBegins(s, markers)
  {
    hide Apply, ScissorBalanced, ProjectionDebt, StaleBegin;
    if markers != [] {
      ApplyAllAccounts(s, markers[..|markers| - 1]);
      ApplyAccounts(ApplyAll(s, markers[..|markers| - 1]), markers[|markers| - 1]);
    }
  }

  lemma {:induction false} DrainWidgetsBalances(s: State)
    requires ScissorBalanced(s)
    ensures var r := DrainWidgets(s);
            && ScissorBalanced(r) && ProjectionDebt(r) == ProjectionDebt(s) && r.widgets == 0 && r.huds == s.huds
            && r.aspects == s.aspects && r.shared == s.shared && r.rdpRect == s.rdpRect
    decreases s.widgets
  {
    if s.widgets > 0 { DrainWidgetsBalances(PopWidget(s)); }
  }

  /** Draining the HUD scopes empties them and, if there were any, leaves the RDP in step. */
  lemma {:induction false} DrainHudsBalances(s: State)
    requires ScissorBalanced(s)
    ensures var r := DrainHuds(s);
            && ScissorBalanced(r) && ProjectionDebt(r) == ProjectionDebt(s) && r.huds == [] && r.widgets == s.widgets
            && r.aspects == s.aspects
            && (if s.huds == [] then r.rdpRect == s.rdpRect && r.shared == s.shared else r.rdpRect == r.shared.rect)
    decreases |s.huds|
  {
    if s.huds != [] { DrainHudsBalances(LeaveHud(s).(rdpRect := s.huds[|s.huds| - 1].previous.rect)); }
  }

  lemma {:induction false} DrainAspectsBalances(s: State)
    requires ScissorBalanced(s)
    ensures var r := DrainAspects(s);
            && ScissorBalanced(r) && ProjectionDebt(r) == ProjectionDebt(s) && r.aspects == [] && r.widgets == s.widgets
            && r.huds == s.huds
            && (if s.aspects == [] then r.rdpRect == s.rdpRect && r.shared == s.shared else r.rdpRect == r.shared.rect)
    decreases |s.aspects|
  {
    if s.aspects != [] { DrainAspectsBalances(PopAspect(s)); }
  }

  /** A task's accounts are settled before its first marker. */
  predicate Settled(s: State) {
    ScissorBalanced(s) && ProjectionDebt(s) == 0
  }

  /** For any markers at all, the end-of-task unwind leaves no scope open and as many scissor pops as pushes;
      of projections it has popped one more than was pushed for every stale begin. */
  lemma UnwindBalances(s: State, markers: seq<Marker>)
    requires Settled(s)
    ensures var r := Unwind(ApplyAll(s, markers));
            && r.counters.scissorPushes == r.counters.scissorPops
            && r.counters.projectionPops == r.counters.projectionPushes + StaleBegins(s, markers)
            && r.huds == [] && r.aspects == [] && r.widgets == 0 && r.shared == NEUTRAL
  {
    hide ApplyAll, DrainWidgets, DrainHuds, DrainAspects, StaleBegins;
    ApplyAllAccounts(s, markers);
    var a := ApplyAll(s, markers);
    DrainWidgetsBalances(a);
    DrainHudsBalances(DrainWidgets(a));
    DrainAspectsBalances(DrainHuds(DrainWidgets(a)));
  }

  /** Marker `k` begins a HUD pass that is accepted at depth `d`, with a projection of its own or without. */
  predicate AcceptedPass(s: State, markers: seq<Marker>, k: nat, d: nat, reference: bool) {
    && k < |markers| && markers[k].HudBegin? && (markers[k].variant == ReferencePass) == reference
    && !HudRejected(ApplyAll(s, markers[..k]), markers[k].variant) && |ApplyAll(s, markers[..k]).huds| == d
  }

  lemma AcceptedEarlier(s: State, markers: seq<Marker>, n: nat, k: nat, d: nat, reference: bool)
    requires k < n <= |markers|
    ensures AcceptedPass(s, markers[..n], k, d, reference) <==> AcceptedPass(s, markers, k, d, reference)
  {
    assert markers[..n][..k] == markers[..k];
  }

  /** A slot is marked when it was to begin with or an earlier reference pass was accepted into it. */
  lemma {:induction false} MarkedMeans(s: State, markers: seq<Marker>, d: nat)
    ensures d in ApplyAll(s, markers).marked <==> d in s.marked || exists k :: AcceptedPass(s, markers, k, d, true)
  {
    if markers != [] {
      var n := |markers| - 1;
      var front := markers[..n];
      MarkedMeans(s, front, d);
      forall k | 0 <= k < n ensures AcceptedPass(s, front, k, d, true) <==> AcceptedPass(s, markers, k, d, true) {
        AcceptedEarlier(s, markers, n, k, d, true);
      }
      MarkedStep(ApplyAll(s, front), markers[n], d);
      hide ApplyAll, HudRejected;
      assert AcceptedPass(s, markers, n, d, true) <==> MarksSlot(ApplyAll(s, front), markers[n], d);
    }
  }

  predicate MarksSlot(s: State, marker: Marker, d: nat) {
    marker.HudBegin? && marker.variant == ReferencePass && !HudRejected(s, marker.variant) && |s.huds| == d
  }

  lemma MarkedStep(s: State, marker: Marker, d: nat)
    ensures d in Apply(s, marker).marked <==> d in s.marked || MarksSlot(s, marker, d)
  {
  }

  /** No pass without a projection of its own is accepted where a reference pass was before it. */
  ghost predicate SlotsKeepKind(s: State, markers: seq<Marker>) {
    forall j: nat, k: nat, d: nat :: j < k && AcceptedPass(s, markers, j, d, true) ==>
      !AcceptedPass(s, markers, k, d, false)
  }

  lemma {:induction false} NoStaleMeans(s: State, markers: seq<Marker>)
    requires s.marked == {}
    ensures StaleBegins(s, markers) == 0 <==> SlotsKeepKind(s, markers)
  {
    if markers != [] {
      var n := |markers| - 1;
      var front := markers[..n];
      NoStaleMeans(s, front);
      forall k: nat, d: nat, reference: bool | k < n
        ensures AcceptedPass(s, front, k, d, reference) <==> AcceptedPass(s, markers, k, d, reference)
      {
        AcceptedEarlier(s, markers, n, k, d, reference);
      }
      LastStale(s, markers);
      hide AcceptedPass, StaleBegin, ApplyAll;
      assert forall k: nat, d: nat, reference: bool :: AcceptedPass(s, markers, k, d, reference) ==> k <= n
        by { AcceptedBounded(s, markers); }
      assert forall k: nat, d: nat, reference: bool :: AcceptedPass(s, front, k, d, reference) ==> k < n
        by { AcceptedBounded(s, front); }
    }
  }

  lemma AcceptedBounded(s: State, markers: seq<Marker>)
    ensures forall k: nat, d: nat, reference: bool :: AcceptedPass(s, markers, k, d, reference) ==> k < |markers|
  {
  }

  lemma LastStale(s: State, markers: seq<Marker>)
    requires s.marked == {} && markers != []
    ensures var n := |markers| - 1;
            StaleBegin(ApplyAll(s, markers[..n]), markers[n])
            <==> exists d: nat, j: nat ::
                 AcceptedPass(s, markers, n, d, false) && j < n && AcceptedPass(s, markers, j, d, true)
  {
    var n := |markers| - 1;
    var front := markers[..n];
    var d := |ApplyAll(s, front).huds|;
    MarkedMeans(s, front, d);
    forall j | 0 <= j < n ensures AcceptedPass(s, front, j, d, true) <==> AcceptedPass(s, markers, j, d, true) {
      AcceptedEarlier(s, markers, n, j, d, true);
    }
  }

  /** The projection stack is balanced at the end of a task exactly when no HUD slot changes from reference passes to
      others. */
  lemma ProjectionsBalanceExactly(s: State, markers: seq<Marker>)
    requires Settled(s) && s.marked == {}
    ensures var r := Unwind(ApplyAll(s, markers));
            r.counters.projectionPushes == r.counters.projectionPops <==> SlotsKeepKind(s, markers)
  {
    hide ApplyAll, Unwind, StaleBegins, SlotsKeepKind;
    UnwindBalances(s, markers);
    NoStaleMeans(s, markers);
  }

  /** The RDP ends on the automatic aspect exactly when some aspect or HUD scope was still open,
      or the recorded aspect was not automatic, or the RDP was already automatic. */
  lemma UnwindAspect(s: State)
    requires ScissorBalanced(s)
    ensures Unwind(s).rdpRect == Auto <==> s.huds != [] || s.aspects != [] || s.shared.rect != Auto || s.rdpRect == Auto
  {
    hide DrainWidgets, DrainHuds, DrainAspects;
    DrainWidgetsBalances(s);
    DrainHudsBalances(DrainWidgets(s));
    DrainAspectsBalances(DrainHuds(DrainWidgets(s)));
  }

  // ---------------------------------------------------------------------
  // The rectangle aspect that the RDP was told
  // ---------------------------------------------------------------------

  /** The RDP has the recorded rectangle aspect. */
  predicate InStep(s: State) {
    s.rdpRect == s.shared.rect
  }

  /** The marker takes effect and tells the RDP its rectangle aspect. */
  predicate Tells(s: State, marker: Marker) {
    match marker
    case AspectBegin(_, _) => !RejectBegin(s.rejectedAspects, |s.aspects|, ASPECT_CAPACITY)
    case AspectEnd(kind) => s.rejectedAspects == 0 && |s.aspects| > 0 && s.aspects[|s.aspects| - 1].kind == kind
    case HudBegin(variant, _, _) => variant == ReferencePass && !HudRejected(s, variant)
    case HudEnd => s.rejectedHuds == 0 && |s.huds| > 0 && TopMarked(s)
    case _ => false
  }

  /** An accepted end of a HUD scope whose slot is not marked, which records an aspect other than the present one. */
  predicate BreaksStep(s: State, marker: Marker) {
    && marker.HudEnd? && s.rejectedHuds == 0 && |s.huds| > 0 && !TopMarked(s)
    && s.huds[|s.huds| - 1].previous.rect != s.shared.rect
  }

  lemma ApplyTells(s: State, marker: Marker)
    ensures Tells(s, marker) ==> InStep(Apply(s, marker))
    ensures !Tells(s, marker) ==> Apply(s, marker).rdpRect == s.rdpRect
    ensures !Tells(s, marker) ==> (Apply(s, marker).shared.rect != s.shared.rect <==> BreaksStep(s, marker))
    ensures Tells(s, marker) ==> !BreaksStep(s, marker)
  {
  }

  /** Only such an end takes the RDP out of step. */
  lemma StepBroken(s: State, marker: Marker)
    requires InStep(s)
    ensures !InStep(Apply(s, marker)) <==> BreaksStep(s, marker)
  {
    hide Apply, Tells, BreaksStep;
    ApplyTells(s, marker);
  }

  /** The markers up to the last one that told the RDP. */
  function Told(s: State, markers: seq<Marker>): (n: nat)
    ensures n <= |markers|
  {
    if markers == [] then 0
    else
      var front := markers[..|markers| - 1];
      if Tells(ApplyAll(s, front), markers[|markers| - 1]) then |markers| else Told(s, front)
  }

  /** After any markers the RDP has the aspect that was recorded when it was last told. */
  lemma {:induction false} ToldAspect(s: State, markers: seq<Marker>)
    requires InStep(s)
    ensures ApplyAll(s, markers).rdpRect == ApplyAll(s, markers[..Told(s, markers)]).shared.rect
  {
    if markers == [] {
      assert markers[..0] == [];
    } else {
      hide Apply, Tells, ApplyAll, Told;
      var n := |markers| - 1;
      var front := markers[..n];
      LastApplied(s, markers);
      ApplyTells(ApplyAll(s, front), markers[n]);
      if Tells(ApplyAll(s, front), markers[n]) {
        assert markers[..|markers|] == markers;
      } else {
        ToldAspect(s, front);
        assert markers[..Told(s, front)] == front[..Told(s, front)];
      }
    }
  }

  lemma LastApplied(s: State, markers: seq<Marker>)
    requires markers != []
    ensures var n := |markers| - 1;
            var front := markers[..n];
            && ApplyAll(s, markers) == Apply(ApplyAll(s, front), markers[n])
            && Told(s, markers) == if Tells(ApplyAll(s, front), markers[n]) then |markers| else Told(s, front)
  {
    hide Apply, Tells;
  }

  /** A task ends on the automatic rectangle aspect if and only if it leaves an aspect or HUD scope open, or its markers
      end with another recorded aspect, or the aspect was automatic when the RDP was last told. */
  ghost predicate EndsAutomatic(s: State, markers: seq<Marker>) {
    var end := ApplyAll(s, markers);
    || end.huds != [] || end.aspects != [] || end.shared.rect != Auto
    || ApplyAll(s, markers[..Told(s, markers)]).shared.rect == Auto
  }

  lemma TaskAspect(s: State, markers: seq<Marker>)
    requires ScissorBalanced(s) && InStep(s)
    ensures Unwind(ApplyAll(s, markers)).rdpRect == Auto <==> EndsAutomatic(s, markers)
  {
    hide ApplyAll, Unwind, Told;
    ApplyAllAccounts(s, markers);
    ToldAspect(s, markers);
    UnwindAspect(ApplyAll(s, markers));
  }

  // ---------------------------------------------------------------------
  // Well-nested markers
  // ---------------------------------------------------------------------

  datatype Forest = Nil | Scope(begin: Marker, inside: Forest, after: Forest)

  predicate IsBegin(marker: Marker) {
    marker.AspectBegin? || marker.HudBegin? || marker.WidgetBegin?
  }

  function EndOf(marker: Marker): (r: Marker)
    requires IsBegin(marker)
  {
    match marker
    case AspectBegin(kind, _) => AspectEnd(kind)
    case HudBegin(_, _, _) => HudEnd
    case WidgetBegin(_) => WidgetEnd
  }

  predicate WellFormed(f: Forest) {
    f.Nil? || (IsBegin(f.begin) && WellFormed(f.inside) && WellFormed(f.after))
  }

  /** The markers of a forest of nested scopes, in display-list order. */
  function Flatten(f: Forest): (markers: seq<Marker>)
    requires WellFormed(f)
  {
    match f
    case Nil => []
    case Scope(begin, inside, after) => [begin] + Flatten(inside) + [EndOf(begin)] + Flatten(after)
  }

  /** Everything is as it was but the push and pop counts, of which the scissor's grew alike, the marks of
      slots not in use, and the projection stack, which shrank by the pops beyond the pushes. */
  predicate Restored(s: State, r: State) {
    && r == s.(counters := r.counters, marked := r.marked, projections := r.projections)
    && r.counters.scissorPushes - s.counters.scissorPushes == r.counters.scissorPops - s.counters.scissorPops
    && s.projections - r.projections
       == (r.counters.projectionPops - s.counters.projectionPops)
          - (r.counters.projectionPushes - s.counters.projectionPushes)
    && forall k :: 0 <= k < |s.huds| ==> (k in r.marked <==> k in s.marked)
  }

  /** A begin keeps the RDP in step, and its end undoes it around anything that restores the state in between. */
  lemma BeginThenEnd(s: State, begin: Marker, middle: State)
    requires InStep(s) && IsBegin(begin) && Restored(Apply(s, begin), middle)
    ensures InStep(Apply(s, begin)) && Restored(s, Apply(middle, EndOf(begin)))
  {
    match begin
    case AspectBegin(kind, token) => AspectPair(s, kind, token, middle);
    case HudBegin(variant, frame, overscan) => HudPair(s, variant, frame, overscan, middle);
    case WidgetBegin(valid) =>
  }

  lemma AspectPair(s: State, kind: AspectKind, token: nat, middle: State)
    requires InStep(s) && Restored(BeginAspect(s, kind, token), middle)
    ensures InStep(BeginAspect(s, kind, token)) && Restored(s, EndAspect(middle, kind))
  {
    if !RejectBegin(s.rejectedAspects, |s.aspects|, ASPECT_CAPACITY) {
      assert (s.aspects + [AspectScope(kind, s.shared)])[..|s.aspects|] == s.aspects;
    }
  }

  lemma HudPair(s: State, variant: HudVariant, frame: Frame, overscan: int, middle: State)
    requires InStep(s) && Restored(BeginHud(s, variant, frame, overscan), middle)
    ensures InStep(BeginHud(s, variant, frame, overscan)) && Restored(s, EndHud(middle))
  {
    if !HudRejected(s, variant) {
      var scope := HudScope(s.shared, s.frame, variant == Anchored);
      assert (s.huds + [scope])[..|s.huds|] == s.huds;
    }
  }

  /** Any well-nested markers, however deep, restore the aspect state, the frame and the scope stacks. */
  lemma {:induction false} WellNestedRestores(s: State, f: Forest)
    requires InStep(s) && WellFormed(f)
    ensures Restored(s, ApplyAll(s, Flatten(f)))
    decreases f
  {
    hide Apply, EndOf, IsBegin;
    match f
    case Nil =>
    case Scope(begin, inside, after) =>
      var within := ApplyAll(s, [begin]);
      Single(s, begin);
      BeginThenEnd(s, begin, within);
      WellNestedRestores(within, inside);
      var middle := ApplyAll(within, Flatten(inside));
      BeginThenEnd(s, begin, middle);
      var closed := Apply(middle, EndOf(begin));
      Single(middle, EndOf(begin));
      WellNestedRestores(closed, after);
      ApplyAllConcat(s, [begin], Flatten(inside));
      ApplyAllConcat(s, [begin] + Flatten(inside), [EndOf(begin)]);
      ApplyAllConcat(s, [begin] + Flatten(inside) + [EndOf(begin)], Flatten(after));
  }

  /** And the projection stack loses one entry for every stale begin among them, so it too is restored exactly when
      there is none. */
  lemma WellNestedProjections(s: State, f: Forest)
    requires ScissorBalanced(s) && InStep(s) && WellFormed(f)
    ensures ApplyAll(s, Flatten(f)).projections == s.projections - StaleBegins(s, Flatten(f))
  {
    hide ApplyAll, StaleBegins, Flatten;
    WellNestedRestores(s, f);
    ApplyAllAccounts(s, Flatten(f));
    MarkedAbove(s.marked, ApplyAll(s, Flatten(f)).marked, |s.huds|);
  }

  lemma Single(s: State, marker: Marker)
    ensures ApplyAll(s, [marker]) == Apply(s, marker)
  {
    assert [marker][..0] == [];
  }

  /** A prefix of a scope and what follows it: it ends inside the scope, or behind it. */
  lemma FlattenPrefix(f: Forest, k: nat)
    requires WellFormed(f) && f.Scope? && 0 < k <= |Flatten(f)|
    ensures var n, tree := |Flatten(f.inside)|, Flatten(Scope(f.begin, f.inside, Nil));
            && tree == [f.begin] + Flatten(f.inside) + [EndOf(f.begin)] && |tree| == n + 2
            && |Flatten(f)| == n + 2 + |Flatten(f.after)|
            && Flatten(f)[..k]
               == if k <= n + 1 then [f.begin] + Flatten(f.inside)[..k - 1] else tree + Flatten(f.after)[..k - n - 2]
  {
    hide EndOf, IsBegin;
    var tree := Flatten(Scope(f.begin, f.inside, Nil));
    assert Flatten(Nil) == [];
    assert tree == [f.begin] + Flatten(f.inside) + [EndOf(f.begin)];
    assert Flatten(f) == tree + Flatten(f.after);
  }

  /** Cut off anywhere, well-nested markers still leave the RDP in step with the recorded aspect. */
  lemma {:induction false} PrefixInStep(s: State, f: Forest, k: nat)
    requires InStep(s) && WellFormed(f) && k <= |Flatten(f)|
    ensures InStep(ApplyAll(s, Flatten(f)[..k]))
    decreases f
  {
    hide Apply, EndOf, IsBegin, Flatten, ApplyAll, InStep, WellFormed;
    if k == 0 {
      Nothing(s);
      assert Flatten(f)[..0] == [];
    } else {
      ScopeParts(f);
      var begin, inside, after := f.begin, f.inside, f.after;
      var alone := Scope(begin, inside, Nil);
      FlattenPrefix(f, k);
      var n := |Flatten(inside)|;
      if k <= n + 1 {
        BeginInStep(s, begin);
        Single(s, begin);
        ApplyAllConcat(s, [begin], Flatten(inside)[..k - 1]);
        PrefixInStep(Apply(s, begin), inside, k - 1);
      } else {
        WellNestedRestores(s, alone);
        RestoredInStep(s, ApplyAll(s, Flatten(alone)));
        ApplyAllConcat(s, Flatten(alone), Flatten(after)[..k - n - 2]);
        PrefixInStep(ApplyAll(s, Flatten(alone)), after, k - n - 2);
      }
    }
  }

  /** A forest with markers has a first scope, well formed in its parts. */
  lemma ScopeParts(f: Forest)
    requires WellFormed(f) && |Flatten(f)| > 0
    ensures f.Scope? && IsBegin(f.begin) && WellFormed(f.inside) && WellFormed(f.after)
    ensures WellFormed(Scope(f.begin, f.inside, Nil))
  {
  }

  lemma BeginInStep(s: State, begin: Marker)
    requires InStep(s) && IsBegin(begin)
    ensures InStep(Apply(s, begin))
  {
    hide Apply;
    BeginThenEnd(s, begin, Apply(s, begin));
  }

  lemma RestoredInStep(s: State, r: State)
    requires InStep(s) && Restored(s, r)
    ensures InStep(r)
  {
  }

  /** A task whose markers are a prefix of well-nested ones ends with the automatic rectangle aspect. */
  lemma PrefixEndsAutomatic(s: State, f: Forest, k: nat)
    requires ScissorBalanced(s) && InStep(s) && WellFormed(f) && k <= |Flatten(f)|
    ensures Unwind(ApplyAll(s, Flatten(f)[..k])).rdpRect == Auto
  {
    hide ApplyAll, Unwind, Flatten;
    PrefixInStep(s, f, k);
    ApplyAllAccounts(s, Flatten(f)[..k]);
    UnwindAspect(ApplyAll(s, Flatten(f)[..k]));
  }

  // ---------------------------------------------------------------------
  // Mis-nested markers
  // ---------------------------------------------------------------------

  const FRESH: State :=
    State(NEUTRAL, Auto, Frame(0, 0, 0), [], 0, [], 0, {}, 0, 0, 0, 8, Counters(0, 0, 0, 0))

  /** Eight markers that no nesting allows. */
  function Crossed(frame: Frame): (markers: seq<Marker>) {
    [HudBegin(Plain, frame, 0), AspectBegin(FixedUi, 0), HudBegin(Plain, frame, 0), AspectEnd(FixedUi),
     HudEnd, AspectBegin(FixedUi, 0), AspectEnd(FixedUi), HudEnd]
  }

  /** Crossed scopes can leave the RDP on another aspect after the unwind, with no scope left open. */
  lemma CrossedScopesLeaveAspect(frame: Frame)
    ensures var s := ApplyAll(FRESH, Crossed(frame));
            s.huds == [] && s.aspects == [] && s.shared.rect == Auto && Unwind(s).rdpRect == Adjust
  {
    hide ApplyAll, Unwind;
    var m := Crossed(frame);
    var s4 := ApplyAll(FRESH, m[..4]);
    CrossedFirstHalf(frame);
    var s5 := Apply(s4, m[4]);
    var s6 := Apply(s5, m[5]);
    var s7 := Apply(s6, m[6]);
    assert s7.rdpRect == Adjust && s7.aspects == [] && s7.huds == [HudScope(NEUTRAL, FRESH.frame, false)];
    Next(FRESH, m, 4, s4);
    Next(FRESH, m, 5, s5);
    Next(FRESH, m, 6, s6);
    Next(FRESH, m, 7, s7);
    assert m[..8] == m;
    CrossedUnwind(Apply(s7, m[7]));
  }

  lemma CrossedStart(frame: Frame)
    ensures var s := ApplyAll(FRESH, Crossed(frame)[..2]);
            && s.shared == Shared(true, Adjust, Adjust, 0) && s.rejectedAspects == 0 && s.rejectedHuds == 0
            && s.widgets == 0
            && s.huds == [HudScope(NEUTRAL, FRESH.frame, false)] && s.aspects == [AspectScope(FixedUi, NEUTRAL)]
            && s.marked == {}
  {
    hide ApplyAll;
    var m := Crossed(frame);
    assert m[..0] == [];
    Nothing(FRESH);
    Next(FRESH, m, 0, FRESH);
    Next(FRESH, m, 1, Apply(FRESH, m[0]));
  }

  lemma CrossedFirstHalf(frame: Frame)
    ensures var s := ApplyAll(FRESH, Crossed(frame)[..4]);
            && s.shared == NEUTRAL && s.rdpRect == Auto && s.aspects == [] && s.rejectedAspects == 0
            && s.rejectedHuds == 0 && s.widgets == 0 && |s.huds| == 2
            && s.huds[0] == HudScope(NEUTRAL, FRESH.frame, false)
            && s.huds[1].previous == Shared(true, Adjust, Adjust, 0) && s.marked == {}
  {
    hide ApplyAll;
    var m := Crossed(frame);
    CrossedStart(frame);
    var s2 := ApplyAll(FRESH, m[..2]);
    Next(FRESH, m, 2, s2);
    Next(FRESH, m, 3, Apply(s2, m[2]));
  }

  lemma Nothing(s: State)
    ensures ApplyAll(s, []) == s
  {
  }

  lemma Next(s: State, markers: seq<Marker>, k: nat, at: State)
    requires k < |markers| && ApplyAll(s, markers[..k]) == at
    ensures ApplyAll(s, markers[..k + 1]) == Apply(at, markers[k])
  {
    assert markers[..k + 1][..k] == markers[..k];
  }

  lemma CrossedUnwind(s: State)
    requires s.huds == [] && s.aspects == [] && s.widgets == 0 && s.shared.rect == Auto && s.rdpRect == Adjust
    ensures Unwind(s).rdpRect == Adjust
  {
  }

  /** A reference pass and then a plain one: well nested, and yet two projections are popped for one pushed. */
  function ReusedSlot(frame: Frame): (markers: seq<Marker>) {
    [HudBegin(ReferencePass, frame, 0), HudEnd, HudBegin(Plain, frame, 0), HudEnd]
  }

  lemma ReusedSlotIsNested(frame: Frame)
    ensures exists f :: WellFormed(f) && Flatten(f) == ReusedSlot(frame)
  {
    var m := ReusedSlot(frame);
    var second := Scope(m[2], Nil, Nil);
    var f := Scope(m[0], Nil, second);
    assert WellFormed(second) && WellFormed(f);
    assert Flatten(second) == [m[2]] + Flatten(Nil) + [EndOf(m[2])] + Flatten(Nil) == [m[2], HudEnd];
    assert Flatten(f) == [m[0]] + Flatten(Nil) + [EndOf(m[0])] + Flatten(second) == m;
  }

  lemma AfterReference(frame: Frame)
    ensures var s := ApplyAll(FRESH, ReusedSlot(frame)[..2]);
            && s.huds == [] && s.marked == {0} && s.rejectedHuds == 0
            && s.counters.projectionPushes == 1 && s.counters.projectionPops == 1
  {
    hide ApplyAll;
    var m := ReusedSlot(frame);
    assert m[..0] == [];
    Nothing(FRESH);
    Next(FRESH, m, 0, FRESH);
    Next(FRESH, m, 1, Apply(FRESH, m[0]));
  }

  lemma ReusedSlotPopsTwice(frame: Frame)
    ensures var r := ApplyAll(FRESH, ReusedSlot(frame));
            r.counters.projectionPushes == 1 && r.counters.projectionPops == 2 && r.huds == [] && r.rejectedHuds == 0
    ensures exists f :: WellFormed(f) && Flatten(f) == ReusedSlot(frame)
  {
    hide ApplyAll, Flatten, WellFormed;
    ReusedSlotIsNested(frame);
    AfterReference(frame);
    var m := ReusedSlot(frame);
    var s2 := ApplyAll(FRESH, m[..2]);
    assert m[..4] == m;
    Next(FRESH, m, 2, s2);
    Next(FRESH, m, 3, Apply(s2, m[2]));
  }

  // ---------------------------------------------------------------------
  // What holds inside a scope
  // ---------------------------------------------------------------------

  /** What an aspect scope of this kind sets, on top of the state `outer` around it. */
  predicate ShowsAspect(outer: Shared, kind: AspectKind, token: nat, s: State) {
    if kind == BackgroundAspect then
      && s.rdpRect == Stretch && s.shared.rect == Stretch && s.shared.fill == (if token <= 2 then token else 0)
      && s.shared.overrideActive == outer.overrideActive && s.shared.override == outer.override
    else
      && s.rdpRect == Adjust && s.shared.rect == Adjust && s.shared.fill == 0
      && s.shared.overrideActive && s.shared.override == Adjust
  }

  /** An aspect begin is accepted while no begin is owed and fewer than 16 scopes are open. A background scope then
      tells the RDP to stretch rectangles, takes over the fill mode and leaves the matrix override alone; every other
      kind keeps the proportions of matrices and rectangles. Nothing else changes but the stack. */
  lemma AspectBeginSets(s: State, kind: AspectKind, token: nat)
    ensures var r := Apply(s, AspectBegin(kind, token));
            if s.rejectedAspects == 0 && |s.aspects| < 16 then
              && ShowsAspect(s.shared, kind, token, r)
              && r == s.(shared := r.shared, rdpRect := r.rdpRect, aspects := s.aspects + [AspectScope(kind, s.shared)])
            else r == s.(rejectedAspects := s.rejectedAspects + 1)
  {
  }

  /** And it still holds after any well-nested markers inside the scope. */
  lemma InsideAspectScope(s: State, kind: AspectKind, token: nat, inside: Forest)
    requires s.rejectedAspects == 0 && |s.aspects| < 16 && WellFormed(inside)
    ensures ShowsAspect(s.shared, kind, token, ApplyAll(s, [AspectBegin(kind, token)] + Flatten(inside)))
  {
    hide Flatten, WellFormed, Apply;
    var begin := AspectBegin(kind, token);
    AspectBeginSets(s, kind, token);
    ApplyAllConcat(s, [begin], Flatten(inside));
    Single(s, begin);
    WellNestedRestores(Apply(s, begin), inside);
  }

  /** An aspect end first pays off a rejected begin. Otherwise it closes the innermost scope if that has its kind, which
      brings back what the scope recorded, and does nothing if not. */
  lemma AspectEndExactly(s: State, kind: AspectKind)
    ensures var r := Apply(s, AspectEnd(kind));
            if s.rejectedAspects > 0 then r == s.(rejectedAspects := s.rejectedAspects - 1)
            else if |s.aspects| > 0 && s.aspects[|s.aspects| - 1].kind == kind then
              var previous := s.aspects[|s.aspects| - 1].previous;
              r == s.(shared := previous, rdpRect := previous.rect, aspects := s.aspects[..|s.aspects| - 1])
            else r == s
  {
  }

  /** A HUD begin is accepted while no begin is owed, fewer than 8 scopes are open and, for a reference pass, the
      projection stack has room. The reference pass keeps the proportions of rectangles, pushes a projection and clips
      to the overscan; an anchored pass moves rectangles; every pass takes its own clip. */
  lemma HudBeginSets(s: State, variant: HudVariant, frame: Frame, overscan: int)
    ensures var r := Apply(s, HudBegin(variant, frame, overscan));
            var reference := variant == ReferencePass;
            if s.rejectedHuds == 0 && |s.huds| < 8 && (reference ==> s.projections < s.projectionLimit) then
              && r.shared.rect == (if reference then Adjust else s.shared.rect)
              && r.rdpRect == (if reference then Adjust else s.rdpRect)
              && r.shared.fill == (if reference then 0 else s.shared.fill)
              && r.shared.overrideActive == s.shared.overrideActive && r.shared.override == s.shared.override
              && r.projections == s.projections + (if reference then 1 else 0)
              && r.frame.clip == frame.clip
              && r.frame.rect == (if variant == Anchored then frame.rect else s.frame.rect)
              && (reference ==> r.frame.scissor == overscan)
              && (!reference && |s.huds| !in s.marked ==> r.frame.scissor == frame.scissor)
              && |r.huds| == |s.huds| + 1 && r.huds[..|s.huds|] == s.huds
              && r.aspects == s.aspects && r.rejectedAspects == s.rejectedAspects && r.widgets == s.widgets
              && r.rejectedWidgets == s.rejectedWidgets && r.rejectedHuds == 0
            else r == s.(rejectedHuds := s.rejectedHuds + 1)
  {
  }

  /** A HUD end first pays off a rejected begin, and does nothing without an open scope. */
  lemma HudEndExactly(s: State)
    ensures s.rejectedHuds > 0 ==> Apply(s, HudEnd) == s.(rejectedHuds := s.rejectedHuds - 1)
    ensures s.rejectedHuds == 0 && s.huds == [] ==> Apply(s, HudEnd) == s
    ensures s.rejectedHuds == 0 && s.huds != [] ==>
      && Apply(s, HudEnd).huds == s.huds[..|s.huds| - 1] && Apply(s, HudEnd).shared == s.huds[|s.huds| - 1].previous
      && Apply(s, HudEnd).aspects == s.aspects
  {
  }

  /** A widget begin is accepted while no begin is owed, fewer than 4 are open and its transform is valid; an end takes
      back the latest begin, rejected ones first. */
  lemma WidgetsExactly(s: State, valid: bool)
    ensures var b, e := Apply(s, WidgetBegin(valid)), Apply(s, WidgetEnd);
            && (if s.rejectedWidgets == 0 && s.widgets < 4 && valid
                then b.widgets == s.widgets + 1 && b.rejectedWidgets == 0
                     && b.counters.scissorPushes == s.counters.scissorPushes + 1
                else b == s.(rejectedWidgets := s.rejectedWidgets + 1))
            && (if s.rejectedWidgets > 0 then e == s.(rejectedWidgets := s.rejectedWidgets - 1)
                else if s.widgets > 0 then e.widgets == s.widgets - 1 && e.rejectedWidgets == 0
                                           && e.counters.scissorPops == s.counters.scissorPops + 1
                else e == s)
  {
  }

  /** A task leaves no aspect, fill or override behind. */
  lemma UnwindNeutral(s: State)
    ensures Unwind(s).shared == Shared(false, Auto, Auto, 0)
  {
    hide DrainWidgets, DrainHuds, DrainAspects;
  }
}
