/** Interpolation identities: three matrix slots beside a stack of presentation scopes
    that records at most 32 levels and counts the begins beyond them. */
module GroupScopes {

  const MATRIX_SLOTS: nat := 3
  const MAX_DEPTH: nat := 32
  const ASPECT_ADJUST_MODE: nat := 5
  const ASPECT_ORIGINAL_MODE: nat := 8
  const IGNORED_IDENTITY: nat := 0

  datatype Group = Group(identity: nat, vertices: bool, texcoords: bool, tiles: bool, mode: nat)

  const NO_GROUP: Group := Group(IGNORED_IDENTITY, false, false, false, 0)

  predicate AspectPolicy(mode: nat) {
    mode == ASPECT_ADJUST_MODE || mode == ASPECT_ORIGINAL_MODE
  }

  function ClampSlot(slot: nat): (r: nat)
    ensures r < MATRIX_SLOTS
  {
    if slot < MATRIX_SLOTS then slot else MATRIX_SLOTS - 1
  }

  datatype Op =
    | LoadMatrix(slot: nat, group: Group)
    | SelectMatrix(slot: nat)
    | Begin(group: Group)
    | End

  // ---------------------------------------------------------------------
  // The unbounded scope stack
  // ---------------------------------------------------------------------

  datatype Ideal = Ideal(matrices: seq<Group>, selected: nat, stack: seq<Group>)

  function IdealStep(s: Ideal, op: Op): (r: Ideal)
    requires |s.matrices| == MATRIX_SLOTS
    ensures |r.matrices| == MATRIX_SLOTS
  {
    match op
    case LoadMatrix(slot, group) =>
      s.(selected := ClampSlot(slot), matrices := s.matrices[ClampSlot(slot) := group.(mode := 0)])
    case SelectMatrix(slot) => s.(selected := ClampSlot(slot))
    case Begin(group) => s.(stack := s.stack + [group])
    case End => if s.stack == [] then s else s.(stack := s.stack[..|s.stack| - 1])
  }

  function IdealRun(s: Ideal, ops: seq<Op>): (r: Ideal)
    requires |s.matrices| == MATRIX_SLOTS
    ensures |r.matrices| == MATRIX_SLOTS
  {
    if ops == [] then s else IdealStep(IdealRun(s, ops[..|ops| - 1]), ops[|ops| - 1])
  }

  // ---------------------------------------------------------------------
  // The bounded record
  // ---------------------------------------------------------------------

  datatype Bounded = Bounded(
    matrices: seq<Group>, selected: nat, scopes: seq<Group>, rejectedBegins: nat, rejectedDepth: nat)

  datatype EndResult = EndResult(ended: Group, hadScope: bool, rejectedBegin: bool)

  predicate Shaped(c: Bounded) {
    && |c.matrices| == MATRIX_SLOTS && c.selected < MATRIX_SLOTS
    && |c.scopes| <= MAX_DEPTH && (c.rejectedDepth != 0 ==> |c.scopes| == MAX_DEPTH)
  }

  const INITIAL: Bounded := Bounded([NO_GROUP, NO_GROUP, NO_GROUP], 0, [], 0, 0)

  function BeginScope(c: Bounded, group: Group): (r: Bounded) {
    if c.rejectedDepth != 0 || |c.scopes| >= MAX_DEPTH then
      c.(rejectedBegins := c.rejectedBegins + 1, rejectedDepth := c.rejectedDepth + 1)
    else c.(scopes := c.scopes + [group])
  }

  function EndScope(c: Bounded): (r: (Bounded, EndResult)) {
    if c.rejectedDepth != 0 then (c.(rejectedDepth := c.rejectedDepth - 1), EndResult(NO_GROUP, false, true))
    else if |c.scopes| == 0 then (c, EndResult(NO_GROUP, false, false))
    else (c.(scopes := c.scopes[..|c.scopes| - 1]), EndResult(c.scopes[|c.scopes| - 1], true, false))
  }

  function BoundedStep(c: Bounded, op: Op): (r: Bounded)
    requires Shaped(c)
    ensures Shaped(r)
  {
    match op
    case LoadMatrix(slot, group) =>
      c.(selected := ClampSlot(slot), matrices := c.matrices[ClampSlot(slot) := group.(mode := 0)])
    case SelectMatrix(slot) => c.(selected := ClampSlot(slot))
    case Begin(group) => BeginScope(c, group)
    case End => EndScope(c).0
  }

  function BoundedRun(c: Bounded, ops: seq<Op>): (r: Bounded)
    requires Shaped(c)
    ensures Shaped(r)
  {
    if ops == [] then c else BoundedStep(BoundedRun(c, ops[..|ops| - 1]), ops[|ops| - 1])
  }

  function ActiveGroup(c: Bounded): (g: Group)
    requires Shaped(c)
  {
    if c.scopes == [] || AspectPolicy(c.scopes[|c.scopes| - 1].mode) then c.matrices[c.selected]
    else c.scopes[|c.scopes| - 1]
  }

  // ---------------------------------------------------------------------
  // Refinement
  // ---------------------------------------------------------------------

  function Recorded(stack: seq<Group>): (r: seq<Group>) {
    if |stack| <= MAX_DEPTH then stack else stack[..MAX_DEPTH]
  }

  /** The record holds the first 32 levels of the ideal stack and counts the rest. */
  predicate Refines(c: Bounded, s: Ideal) {
    && c.matrices == s.matrices && c.selected == s.selected
    && c.scopes == Recorded(s.stack) && c.rejectedDepth == |s.stack| - |c.scopes|
  }

  lemma StepRefines(c: Bounded, s: Ideal, op: Op)
    requires Shaped(c) && Refines(c, s)
    ensures Refines(BoundedStep(c, op), IdealStep(s, op))
  {
    if op.Begin? {
      if |s.stack| >= MAX_DEPTH { assert (s.stack + [op.group])[..MAX_DEPTH] == s.stack[..MAX_DEPTH]; }
    } else if op.End? && s.stack != [] {
      if |s.stack| > MAX_DEPTH { assert s.stack[..|s.stack| - 1][..MAX_DEPTH] == s.stack[..MAX_DEPTH]; }
    }
  }

  /** Every sequence of begins, ends, loads and selects keeps the record a bounded view of the ideal stack. */
  lemma {:induction false} RunRefines(c: Bounded, s: Ideal, ops: seq<Op>)
    requires Shaped(c) && Refines(c, s)
    ensures Refines(BoundedRun(c, ops), IdealRun(s, ops))
  {
    assert |s.matrices| == MATRIX_SLOTS;
    hide BoundedStep, IdealStep, Refines, Shaped;
    if ops != [] {
      RunRefines(c, s, ops[..|ops| - 1]);
      StepRefines(BoundedRun(c, ops[..|ops| - 1]), IdealRun(s, ops[..|ops| - 1]), ops[|ops| - 1]);
    }
  }

  /** What an end reports, in terms of the ideal stack: the scope it closes if that was recorded,
      a rejected begin if it was not, and nothing at all on underflow. */
  lemma EndReports(c: Bounded, s: Ideal)
    requires Shaped(c) && Refines(c, s)
    ensures var (r, result) := EndScope(c);
            && (s.stack == [] ==> r == c && result == EndResult(NO_GROUP, false, false))
            && (0 < |s.stack| <= MAX_DEPTH ==> result == EndResult(s.stack[|s.stack| - 1], true, false))
            && (|s.stack| > MAX_DEPTH ==> result == EndResult(NO_GROUP, false, true) && r.scopes == c.scopes)
  {
  }

  /** The active identity is the selected matrix's unless the innermost recorded scope is a geometry scope. */
  lemma ActiveGroupMeaning(c: Bounded, s: Ideal)
    requires Shaped(c) && Refines(c, s)
    ensures ActiveGroup(c) == if s.stack == [] || AspectPolicy(Recorded(s.stack)[|Recorded(s.stack)| - 1].mode)
                              then s.matrices[s.selected] else Recorded(s.stack)[|Recorded(s.stack)| - 1]
  {
  }

  /** The run without its scope operations. */
  function MatrixOps(ops: seq<Op>): (r: seq<Op>) {
    if ops == [] then []
    else
      var last := ops[|ops| - 1];
      MatrixOps(ops[..|ops| - 1]) + (if last.LoadMatrix? || last.SelectMatrix? then [last] else [])
  }

  predicate AllAspect(scopes: seq<Group>) {
    forall i :: 0 <= i < |scopes| ==> AspectPolicy(scopes[i].mode)
  }

  predicate OnlyAspectBegins(ops: seq<Op>) {
    forall i :: 0 <= i < |ops| && ops[i].Begin? ==> AspectPolicy(ops[i].group.mode)
  }

  predicate SameMatrices(a: Bounded, b: Bounded) {
    a.matrices == b.matrices && a.selected == b.selected
  }

  lemma AspectStep(c: Bounded, op: Op)
    requires Shaped(c) && AllAspect(c.scopes) && (op.Begin? ==> AspectPolicy(op.group.mode))
    ensures AllAspect(BoundedStep(c, op).scopes)
    ensures op.Begin? || op.End? ==> SameMatrices(BoundedStep(c, op), c)
  {
  }

  lemma MatrixStep(a: Bounded, b: Bounded, op: Op)
    requires Shaped(a) && Shaped(b) && SameMatrices(a, b) && (op.LoadMatrix? || op.SelectMatrix?)
    ensures SameMatrices(BoundedStep(a, op), BoundedStep(b, op)) && BoundedStep(b, op).scopes == b.scopes
  {
  }

  lemma AspectActive(c: Bounded)
    requires Shaped(c) && AllAspect(c.scopes)
    ensures ActiveGroup(c) == c.matrices[c.selected]
  {
  }

  lemma {:induction false} AspectRun(c: Bounded, ops: seq<Op>)
    requires Shaped(c) && AllAspect(c.scopes) && OnlyAspectBegins(ops)
    ensures AllAspect(BoundedRun(c, ops).scopes) && SameMatrices(BoundedRun(c, ops), BoundedRun(c, MatrixOps(ops)))
    ensures BoundedRun(c, MatrixOps(ops)).scopes == c.scopes
  {
    hide BoundedStep, Shaped, AspectPolicy;
    if ops != [] {
      var front, last := ops[..|ops| - 1], ops[|ops| - 1];
      AspectRun(c, front);
      var kept := MatrixOps(front);
      AspectStep(BoundedRun(c, front), last);
      if last.LoadMatrix? || last.SelectMatrix? {
        assert (kept + [last])[..|kept|] == kept;
        MatrixStep(BoundedRun(c, front), BoundedRun(c, kept), last);
      } else {
        assert MatrixOps(ops) == kept;
      }
    }
  }

  /** Aspect scopes never replace the selected matrix's identity: however they open, close, overflow or underflow
      between loads and selects, the active identity is the one that the loads and selects alone would give. */
  lemma AspectScopesKeepIdentity(c: Bounded, ops: seq<Op>)
    requires Shaped(c) && AllAspect(c.scopes) && OnlyAspectBegins(ops)
    ensures var bare := BoundedRun(c, MatrixOps(ops));
            ActiveGroup(BoundedRun(c, ops)) == ActiveGroup(bare) == bare.matrices[bare.selected]
  {
    hide BoundedRun;
    AspectRun(c, ops);
    AspectActive(BoundedRun(c, ops));
    AspectActive(BoundedRun(c, MatrixOps(ops)));
  }

  // ---------------------------------------------------------------------
  // Nesting
  // ---------------------------------------------------------------------

  datatype Nest = Done | Plain(op: Op, rest: Nest) | Scoped(group: Group, inside: Nest, rest: Nest)

  predicate WellFormed(n: Nest) {
    match n
    case Done => true
    case Plain(op, rest) => (op.LoadMatrix? || op.SelectMatrix?) && WellFormed(rest)
    case Scoped(_, inside, rest) => WellFormed(inside) && WellFormed(rest)
  }

  function Flatten(n: Nest): (ops: seq<Op>) {
    match n
    case Done => []
    case Plain(op, rest) => [op] + Flatten(rest)
    case Scoped(group, inside, rest) => [Begin(group)] + Flatten(inside) + [End] + Flatten(rest)
  }

  lemma {:induction false} IdealConcat(s: Ideal, a: seq<Op>, b: seq<Op>)
    requires |s.matrices| == MATRIX_SLOTS
    ensures IdealRun(s, a + b) == IdealRun(IdealRun(s, a), b)
  {
    hide IdealStep;
    if b == [] {
      assert a + b == a;
    } else {
      assert (a + b)[..|a + b| - 1] == a + b[..|b| - 1];
      IdealConcat(s, a, b[..|b| - 1]);
    }
  }

  lemma IdealSingle(s: Ideal, op: Op)
    requires |s.matrices| == MATRIX_SLOTS
    ensures IdealRun(s, [op]) == IdealStep(s, op)
  {
    assert [op][..0] == [];
  }

  /** Nested operations leave the ideal stack as they found it. */
  lemma {:induction false} NestKeepsStack(s: Ideal, n: Nest)
    requires WellFormed(n) && |s.matrices| == MATRIX_SLOTS
    ensures IdealRun(s, Flatten(n)).stack == s.stack
    decreases n
  {
    hide IdealRun;
    match n
    case Done => IdealNothing(s);
    case Plain(op, rest) =>
      IdealConcat(s, [op], Flatten(rest));
      IdealSingle(s, op);
      NestKeepsStack(IdealStep(s, op), rest);
    case Scoped(group, inside, rest) =>
      var a := IdealStep(s, Begin(group));
      var b := IdealRun(a, Flatten(inside));
      IdealSingle(s, Begin(group));
      NestKeepsStack(a, inside);
      IdealSingle(b, End);
      assert a.stack[..|a.stack| - 1] == s.stack;
      NestKeepsStack(IdealStep(b, End), rest);
      IdealConcat(s, [Begin(group)], Flatten(inside));
      IdealConcat(s, [Begin(group)] + Flatten(inside), [End]);
      IdealConcat(s, [Begin(group)] + Flatten(inside) + [End], Flatten(rest));
  }

  lemma IdealNothing(s: Ideal)
    requires |s.matrices| == MATRIX_SLOTS
    ensures IdealRun(s, []) == s
  {
  }

  /** Each end closes its own begin: after any nested operations, the end that follows reports the group
      that this begin recorded, or a rejected begin when this begin was rejected, and the stack is as before it. */
  lemma EndClosesOwnBegin(c: Bounded, s: Ideal, group: Group, inside: Nest)
    requires Shaped(c) && Refines(c, s) && WellFormed(inside)
    ensures var d := BoundedRun(BeginScope(c, group), Flatten(inside));
            var (r, result) := EndScope(d);
            && r.scopes == c.scopes && r.rejectedDepth == c.rejectedDepth
            && (if |s.stack| < MAX_DEPTH then result == EndResult(group, true, false)
                else result == EndResult(NO_GROUP, false, true))
  {
    hide BoundedRun, IdealRun, Flatten;
    StepRefines(c, s, Begin(group));
    var inner := IdealStep(s, Begin(group));
    RunRefines(BeginScope(c, group), inner, Flatten(inside));
    NestKeepsStack(inner, inside);
    var d := BoundedRun(BeginScope(c, group), Flatten(inside));
    EndReports(d, IdealRun(inner, Flatten(inside)));
    StepRefines(d, IdealRun(inner, Flatten(inside)), End);
    assert (s.stack + [group])[..|s.stack|] == s.stack;
  }

  // ---------------------------------------------------------------------
  // The object
  // ---------------------------------------------------------------------

  class GroupState {
    const matrixGroups: array<Group>
    const scopes: array<Group>
    var selectedMatrix: nat
    var scopeDepth: nat
    var rejectedScopeBegins: nat
    var rejectedScopeDepth: nat

    ghost predicate Valid()
      reads this
    {
      && matrixGroups.Length == MATRIX_SLOTS && scopes.Length == MAX_DEPTH && matrixGroups != scopes
      && selectedMatrix < MATRIX_SLOTS && scopeDepth <= MAX_DEPTH
      && (rejectedScopeDepth != 0 ==> scopeDepth == MAX_DEPTH)
    }

    ghost function Value(): (c: Bounded)
      requires Valid()
      reads this, matrixGroups, scopes
      ensures Shaped(c)
    {
      Bounded(matrixGroups[..], selectedMatrix, scopes[..scopeDepth], rejectedScopeBegins, rejectedScopeDepth)
    }

    constructor ()
      ensures Valid() && fresh(matrixGroups) && fresh(scopes) && Value() == INITIAL
    {
      matrixGroups := new Group[MATRIX_SLOTS](_ => NO_GROUP);
      scopes := new Group[MAX_DEPTH](_ => NO_GROUP);
      selectedMatrix := 0;
      scopeDepth := 0;
      rejectedScopeBegins := 0;
      rejectedScopeDepth := 0;
      new;
      assert matrixGroups[..] == [NO_GROUP, NO_GROUP, NO_GROUP];
    }

    method Load(slot: nat, group: Group)
      requires Valid()
      modifies this, matrixGroups
      ensures Valid() && Value() == BoundedStep(old(Value()), LoadMatrix(slot, group))
    {
      selectedMatrix := ClampSlot(slot);
      matrixGroups[selectedMatrix] := group.(mode := 0);
    }

    method Select(slot: nat)
      requires Valid()
      modifies this
      ensures Valid() && Value() == BoundedStep(old(Value()), SelectMatrix(slot))
    {
      selectedMatrix := ClampSlot(slot);
    }

    method BeginGroup(group: Group) returns (accepted: bool)
      requires Valid()
      modifies this, scopes
      ensures Valid() && Value() == BeginScope(old(Value()), group)
      ensures accepted == (old(rejectedScopeDepth == 0 && scopeDepth < MAX_DEPTH))
    {
      if rejectedScopeDepth != 0 || scopeDepth >= scopes.Length {
        rejectedScopeBegins := rejectedScopeBegins + 1;
        rejectedScopeDepth := rejectedScopeDepth + 1;
        return false;
      }
      scopes[scopeDepth] := group;
      scopeDepth := scopeDepth + 1;
      return true;
    }

    method EndGroup() returns (result: EndResult)
      requires Valid()
      modifies this, scopes
      ensures Valid() && (Value(), result) == EndScope(old(Value()))
    {
      if rejectedScopeDepth != 0 {
        rejectedScopeDepth := rejectedScopeDepth - 1;
        return EndResult(NO_GROUP, false, true);
      }
      if scopeDepth == 0 {
        return EndResult(NO_GROUP, false, false);
      }
      scopeDepth := scopeDepth - 1;
      var ended := scopes[scopeDepth];
      scopes[scopeDepth] := NO_GROUP;
      assert scopes[..scopeDepth] == old(scopes[..scopeDepth])[..scopeDepth];
      return EndResult(ended, true, false);
    }

    method Active() returns (group: Group)
      requires Valid()
      ensures group == ActiveGroup(Value())
    {
      if scopeDepth == 0 || AspectPolicy(scopes[scopeDepth - 1].mode) {
        return matrixGroups[selectedMatrix];
      }
      return scopes[scopeDepth - 1];
    }

    method ContainsMode(mode: nat) returns (found: bool)
      requires Valid()
      ensures found <==> exists i :: 0 <= i < |Value().scopes| && Value().scopes[i].mode == mode
    {
      for index := 0 to scopeDepth
        invariant forall i :: 0 <= i < index ==> scopes[i].mode != mode
      {
        if scopes[index].mode == mode {
          assert Value().scopes[index].mode == mode;
          return true;
        }
      }
      return false;
    }
  }

  // ---------------------------------------------------------------------
  // Which identity is active
  // ---------------------------------------------------------------------

  /** The three matrix slots, higher numbers meaning the last one. */
  predicate MeansSlot(slot: nat, k: nat) {
    if slot < 3 then k == slot else k == 2
  }

  /** No scope is open, or the innermost recorded one carries an aspect policy only: RT64's adjust and original modes.
      */
  predicate ShowsMatrix(c: Bounded) {
    c.scopes == [] || c.scopes[|c.scopes| - 1].mode in {5, 8}
  }

  /** A load replaces its slot and selects it; a select only selects. The selected slot is the active one while no
      geometry scope is innermost, otherwise that scope is. */
  lemma ActiveExactly(c: Bounded, slot: nat, group: Group, k: nat)
    requires Shaped(c) && MeansSlot(slot, k)
    ensures var loaded, selected := BoundedStep(c, LoadMatrix(slot, group)), BoundedStep(c, SelectMatrix(slot));
            && loaded.selected == k && loaded.matrices == c.matrices[k := group.(mode := 0)]
            && loaded.scopes == c.scopes
            && selected == c.(selected := k)
            && (ShowsMatrix(c) ==>
                  ActiveGroup(loaded) == group.(mode := 0) && ActiveGroup(selected) == c.matrices[k])
            && (!ShowsMatrix(c) ==> ActiveGroup(loaded) == ActiveGroup(selected) == c.scopes[|c.scopes| - 1])
  {
  }

  /** A recorded geometry scope becomes the active identity, an aspect scope shows the selected matrix. At most 32 are
      recorded. */
  lemma BeginExactly(c: Bounded, group: Group)
    requires Shaped(c)
    ensures var r := BoundedStep(c, Begin(group));
            if c.rejectedDepth == 0 && |c.scopes| < 32 then
              && r == c.(scopes := c.scopes + [group])
              && ActiveGroup(r) == if group.mode in {5, 8} then c.matrices[c.selected] else group
            else r == c.(rejectedBegins := c.rejectedBegins + 1, rejectedDepth := c.rejectedDepth + 1)
                 && ActiveGroup(r) == ActiveGroup(c)
  {
  }
}
