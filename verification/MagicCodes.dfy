/** Magic Code selection and the life of a selection in one game session.
    A 32-bit mask is the set of its bit positions. */
module MagicCodes {

  type Mask = set<nat>

  datatype Behaviour = Persistent | DeferredAction | Diagnostic

  datatype Definition = Definition(index: nat, behaviour: Behaviour)

  /** The codes that can be selected, in table order. */
  const DEFINITIONS: seq<Definition> := [
    Definition(4, Persistent), Definition(5, Persistent), Definition(6, Persistent), Definition(7, Persistent),
    Definition(8, Persistent), Definition(10, DeferredAction), Definition(11, Persistent), Definition(12, Persistent),
    Definition(13, Persistent), Definition(14, Persistent), Definition(15, Persistent), Definition(16, Persistent),
    Definition(17, Persistent), Definition(18, Persistent), Definition(19, Persistent), Definition(20, Persistent),
    Definition(21, Persistent), Definition(22, Persistent), Definition(23, Persistent), Definition(24, Persistent),
    Definition(25, Persistent), Definition(26, DeferredAction), Definition(27, Diagnostic), Definition(28, Diagnostic)
  ]

  function Bit(index: nat): (m: Mask) {
    if index < 32 then {index} else {}
  }

  const SELECTABLE: Mask := set x: nat | 4 <= x <= 28 && x != 9
  const ONE_SHOT: Mask := {10, 26}
  const PERSISTENT: Mask := SELECTABLE - ONE_SHOT

  /** The bits of the first `n` definitions, or of the one-shot ones among them. */
  function BitsOf(n: nat, oneShotOnly: bool): (m: Mask)
    requires n <= |DEFINITIONS|
  {
    if n == 0 then {}
    else
      BitsOf(n - 1, oneShotOnly)
      + if oneShotOnly && DEFINITIONS[n - 1].behaviour != DeferredAction then {} else Bit(DEFINITIONS[n - 1].index)
  }

  /** The two derived masks, built by a loop over the table. */
  method BuildMasks() returns (selectable: Mask, oneShot: Mask)
    ensures selectable == SELECTABLE && oneShot == ONE_SHOT
  {
    hide BitsOf;
    NoBits();
    selectable, oneShot := {}, {};
    for i := 0 to |DEFINITIONS|
      invariant selectable == BitsOf(i, false) && oneShot == BitsOf(i, true)
    {
      BitsStep(i);
      selectable := selectable + Bit(DEFINITIONS[i].index);
      if DEFINITIONS[i].behaviour == DeferredAction {
        oneShot := oneShot + Bit(DEFINITIONS[i].index);
      }
    }
    TableMasks();
  }

  lemma BitsStep(n: nat)
    requires n < |DEFINITIONS|
    ensures BitsOf(n + 1, false) == BitsOf(n, false) + Bit(DEFINITIONS[n].index)
    ensures BitsOf(n + 1, true)
         == if DEFINITIONS[n].behaviour == DeferredAction then BitsOf(n, true) + Bit(DEFINITIONS[n].index)
            else BitsOf(n, true)
  {
  }

  /** The table in one line: codes 4 to 28 without 9, of which 10 and 26 are one-shots. */
  lemma DefinitionAt(i: nat)
    requires i < |DEFINITIONS|
    ensures |DEFINITIONS| == 24
    ensures DEFINITIONS[i].index == if i < 5 then i + 4 else i + 5
    ensures DEFINITIONS[i].behaviour == DeferredAction <==> i == 5 || i == 21
  {
  }

  lemma {:induction false} BitsUpTo(n: nat)
    requires n <= |DEFINITIONS|
    ensures BitsOf(n, false) == set x | x in SELECTABLE && x < if n <= 5 then n + 4 else n + 5
    ensures BitsOf(n, true) == (if n > 5 then {10} else {}) + (if n > 21 then {26} else {})
  {
    hide BitsOf;
    if n == 0 {
      NoBits();
    } else {
      BitsUpTo(n - 1);
      BitsStep(n - 1);
      DefinitionAt(n - 1);
    }
  }

  lemma TableMasks()
    ensures |DEFINITIONS| == 24 && BitsOf(24, false) == SELECTABLE && BitsOf(24, true) == ONE_SHOT
  {
    hide BitsOf;
    DefinitionAt(0);
    BitsUpTo(24);
  }

  lemma NoBits()
    ensures BitsOf(0, false) == {} && BitsOf(0, true) == {}
  {
  }

  // ---------------------------------------------------------------------
  // Selecting codes
  // ---------------------------------------------------------------------

  const BIG: nat := 4
  const SMALL: nat := 5
  const NO_WEAPONS: nat := 11
  const NO_BANANAS: nat := 12
  const BANANA_MODIFIERS: Mask := {7, 13, 14}
  const WEAPON_MODIFIERS: Mask := {15, 16, 17, 18, 19, 20}
  const BALLOON_COLOURS: Mask := {15, 16, 17, 18, 19}

  function Enable(current: Mask, index: nat): (r: Mask) {
    if index >= 32 || index !in SELECTABLE then current * SELECTABLE
    else
      var a := (current + {index}) * SELECTABLE;
      var b := if index == BIG then a - {SMALL} else a;
      var c := if index == SMALL then b - {BIG} else b;
      var d := if index == NO_BANANAS then c - BANANA_MODIFIERS else c;
      var e := if index in BANANA_MODIFIERS then d - {NO_BANANAS} else d;
      var f := if index == NO_WEAPONS then e - WEAPON_MODIFIERS else e;
      var g := if index in WEAPON_MODIFIERS then f - {NO_WEAPONS} else f;
      if index in BALLOON_COLOURS then g - (BALLOON_COLOURS - {index}) else g
  }

  function Disable(current: Mask, index: nat): (r: Mask) {
    (current - Bit(index)) * SELECTABLE
  }

  /** Two codes that contradict each other. */
  predicate Conflict(a: nat, b: nat) {
    || (a == BIG && b == SMALL)
    || (a == NO_BANANAS && b in BANANA_MODIFIERS)
    || (a == NO_WEAPONS && b in WEAPON_MODIFIERS)
    || (a in BALLOON_COLOURS && b in BALLOON_COLOURS && a != b)
  }

  /** Only selectable codes, and no two that contradict each other. */
  predicate Consistent(m: Mask) {
    m <= SELECTABLE && forall a, b :: a in m && b in m ==> !Conflict(a, b)
  }

  lemma EnableKeepsConsistent(m: Mask, index: nat)
    requires Consistent(m)
    ensures Consistent(Enable(m, index))
    ensures index in SELECTABLE ==> index in Enable(m, index)
    ensures forall x :: x in m && !Conflict(x, index) && !Conflict(index, x) ==> x in Enable(m, index)
  {
  }

  lemma DisableKeepsConsistent(m: Mask, index: nat)
    requires Consistent(m)
    ensures Consistent(Disable(m, index)) && Disable(m, index) == m - {index}
  {
  }

  datatype Choice = On(index: nat) | Off(index: nat)

  function Choose(m: Mask, choices: seq<Choice>): (r: Mask)
    decreases |choices|
  {
    if choices == [] then m
    else Choose(if choices[0].On? then Enable(m, choices[0].index) else Disable(m, choices[0].index), choices[1..])
  }

  /** Every run of enables and disables from a consistent mask stays selectable and free of conflicts. */
  lemma {:induction false} ChoicesStayConsistent(m: Mask, choices: seq<Choice>)
    requires Consistent(m)
    ensures Consistent(Choose(m, choices))
    decreases |choices|
  {
    hide Consistent, Enable, Disable;
    if choices != [] {
      EnableKeepsConsistent(m, choices[0].index);
      DisableKeepsConsistent(m, choices[0].index);
      var next := if choices[0].On? then Enable(m, choices[0].index) else Disable(m, choices[0].index);
      ChoicesStayConsistent(next, choices[1..]);
    }
  }

  // ---------------------------------------------------------------------
  // Normalising a mask
  // ---------------------------------------------------------------------

  /** The result after the first `n` definitions. */
  function NormalisedUpTo(mask: Mask, n: nat): (r: Mask)
    requires n <= |DEFINITIONS|
  {
    if n == 0 then {}
    else
      var before := NormalisedUpTo(mask, n - 1);
      if DEFINITIONS[n - 1].index in mask then Enable(before, DEFINITIONS[n - 1].index) else before
  }

  function Normalised(mask: Mask): (r: Mask) {
    TableMasks();
    NormalisedUpTo(mask, 24)
  }

  lemma NormalisedStep(mask: Mask, n: nat)
    requires n < |DEFINITIONS|
    ensures NormalisedUpTo(mask, n + 1)
         == if DEFINITIONS[n].index in mask then Enable(NormalisedUpTo(mask, n), DEFINITIONS[n].index)
            else NormalisedUpTo(mask, n)
  {
    hide Enable;
  }

  lemma NothingNormalised(mask: Mask)
    ensures NormalisedUpTo(mask, 0) == {}
  {
  }

  method NormaliseMask(mask: Mask) returns (result: Mask)
    ensures result == Normalised(mask)
  {
    hide NormalisedUpTo, Enable, BitsOf;
    TableMasks();
    NothingNormalised(mask);
    result := {};
    for i := 0 to |DEFINITIONS|
      invariant result == NormalisedUpTo(mask, i)
    {
      NormalisedStep(mask, i);
      if DEFINITIONS[i].index in mask {
        result := Enable(result, DEFINITIONS[i].index);
      }
    }
  }

  lemma {:induction false} NormalisedConsistent(mask: Mask, n: nat)
    requires n <= |DEFINITIONS|
    ensures Consistent(NormalisedUpTo(mask, n)) && NormalisedUpTo(mask, n) <= mask
  {
    hide Consistent, Enable;
    if n == 0 {
      NothingConsistent();
    } else {
      NormalisedConsistent(mask, n - 1);
      EnableKeepsConsistent(NormalisedUpTo(mask, n - 1), DEFINITIONS[n - 1].index);
      EnableAddsOne(NormalisedUpTo(mask, n - 1), DEFINITIONS[n - 1].index);
    }
  }

  lemma NothingConsistent()
    ensures Consistent({})
  {
  }

  lemma EnableAddsOne(m: Mask, index: nat)
    ensures Enable(m, index) <= m + {index}
  {
  }

  /** Adding a code to part of a consistent mask that contains it displaces nothing. */
  lemma EnableWithin(whole: Mask, part: Mask, index: nat)
    requires Consistent(whole) && part <= whole && index in whole
    ensures Enable(part, index) == part + {index}
  {
    assert index in SELECTABLE;
    forall x | x in part ensures x in Enable(part, index) {
      assert !Conflict(x, index) && !Conflict(index, x);
    }
  }

  lemma {:induction false} NormalisedIdentity(mask: Mask, n: nat)
    requires Consistent(mask) && n <= |DEFINITIONS|
    ensures NormalisedUpTo(mask, n) == mask * BitsOf(n, false)
  {
    hide Consistent, Enable, NormalisedUpTo, BitsOf;
    if n == 0 {
      NothingNormalised(mask);
      NoBits();
    } else {
      NormalisedIdentity(mask, n - 1);
      NormalisedStep(mask, n - 1);
      BitsStep(n - 1);
      DefinitionAt(n - 1);
      if DEFINITIONS[n - 1].index in mask {
        EnableWithin(mask, NormalisedUpTo(mask, n - 1), DEFINITIONS[n - 1].index);
      }
    }
  }

  /** Normalising always yields a consistent mask, and is the identity on exactly the consistent ones. */
  lemma NormalisedExactly(mask: Mask)
    ensures Consistent(Normalised(mask)) && Normalised(mask) <= mask
    ensures Normalised(mask) == mask <==> Consistent(mask)
  {
    TableMasks();
    NormalisedConsistent(mask, 24);
    if Consistent(mask) { NormalisedIdentity(mask, 24); }
  }

  predicate Clash(a: nat, b: nat) {
    Conflict(a, b) || Conflict(b, a)
  }

  /** A later code of the mask, below the limit, contradicts this one. */
  predicate Displaced(mask: Mask, code: nat, limit: nat) {
    exists later :: later in mask && later in SELECTABLE && code < later < limit && Clash(code, later)
  }

  /** Kept by the definitions whose codes lie below the limit. */
  predicate Kept(mask: Mask, code: nat, limit: nat) {
    code in mask && code in SELECTABLE && code < limit && !Displaced(mask, code, limit)
  }

  lemma EnableExactly(m: Mask, index: nat, code: nat)
    requires m <= SELECTABLE && index in SELECTABLE
    ensures code in Enable(m, index) <==> code == index || (code in m && !Clash(code, index))
  {
  }

  /** One more definition keeps its own code and displaces what contradicts it. */
  lemma KeptStep(mask: Mask, code: nat, index: nat)
    requires index in SELECTABLE
    ensures Kept(mask, code, index + 1)
      <==> if index !in mask then Kept(mask, code, index)
           else code == index || (Kept(mask, code, index) && !Clash(code, index))
  {
    hide Clash;
    if Displaced(mask, code, index) {
      var later :| later in mask && later in SELECTABLE && code < later < index && Clash(code, later);
      assert Displaced(mask, code, index + 1);
    }
  }

  lemma {:induction false} NormalisedKeepsUpTo(mask: Mask, n: nat, code: nat)
    requires n <= |DEFINITIONS|
    ensures code in NormalisedUpTo(mask, n) <==> Kept(mask, code, if n <= 5 then n + 4 else n + 5)
  {
    hide NormalisedUpTo, Enable, Consistent, Kept, Clash;
    if n == 0 {
      NothingNormalised(mask);
      NothingKept(mask, code);
    } else {
      var index := DEFINITIONS[n - 1].index;
      NormalisedKeepsUpTo(mask, n - 1, code);
      NormalisedStep(mask, n - 1);
      DefinitionAt(n - 1);
      KeptStep(mask, code, index);
      KeptGap(mask, code);
      NormalisedSelectable(mask, n - 1);
      EnableExactly(NormalisedUpTo(mask, n - 1), index, code);
    }
  }

  lemma NothingKept(mask: Mask, code: nat)
    ensures !Kept(mask, code, 4)
  {
  }

  /** Code 9 cannot be selected. */
  lemma KeptGap(mask: Mask, code: nat)
    ensures Kept(mask, code, 10) <==> Kept(mask, code, 9)
  {
    hide Clash;
  }

  lemma NormalisedSelectable(mask: Mask, n: nat)
    requires n <= |DEFINITIONS|
    ensures NormalisedUpTo(mask, n) <= SELECTABLE
  {
    hide NormalisedUpTo;
    NormalisedConsistent(mask, n);
  }

  /** What normalising keeps: a selectable code of the mask, unless a later selectable code of the mask contradicts it.
      */
  lemma NormalisedKeeps(mask: Mask, code: nat)
    ensures code in Normalised(mask) <==>
      && code in mask && code in SELECTABLE
      && !exists later :: later in mask && later in SELECTABLE && code < later && Clash(code, later)
  {
    hide NormalisedUpTo, Clash;
    TableMasks();
    NormalisedKeepsUpTo(mask, 24, code);
    if later :| later in mask && later in SELECTABLE && code < later && Clash(code, later) {
      assert Displaced(mask, code, 29);
    }
  }

  /** Code 7 is lost to code 12, which is lost to code 13, although 7 and 13 go together. */
  lemma NormalisingLosesMore()
    ensures Normalised({7, 12, 13}) == {13} && Consistent({7, 13})
  {
    hide Normalised;
    forall code: nat ensures code in Normalised({7, 12, 13}) <==> code == 13 {
      NormalisedKeeps({7, 12, 13}, code);
      assert Clash(7, 12) && Clash(12, 13);
    }
  }

  // ---------------------------------------------------------------------
  // Sessions
  // ---------------------------------------------------------------------

  datatype Session = Session(persistent: Mask, deferred: Mask, armed: Mask, completed: Mask, applied: bool)

  /** The game's two code words. */
  datatype Words = Words(active: Mask, unlocked: Mask)

  function BeginSession(persistent: Mask, deferred: Mask, online: bool): (s: Session) {
    Session(Normalised(persistent) * PERSISTENT, deferred * ONE_SHOT - (if online then Bit(10) else {}), {}, {}, false)
  }

  function ApplySession(s: Session, words: Words): (r: (Session, Words, Mask)) {
    if s.applied then (s, words, {})
    else
      var selected := Normalised(s.persistent + s.deferred);
      (s.(applied := true, armed := selected * ONE_SHOT),
       Words(words.active + selected, words.unlocked + selected), selected)
  }

  function CompleteAction(s: Session, action: Mask, authoritative: bool): (r: Session) {
    if authoritative then s.(completed := s.completed + action * s.armed) else s
  }

  function Acknowledge(s: Session, consumed: Mask): (r: Session) {
    s.(armed := s.armed - consumed, completed := s.completed - consumed)
  }

  datatype Event =
    | Apply(words: Words)
    | Complete(action: Mask, authoritative: bool)
    | Consume(consumed: Mask)

  function Next(s: Session, event: Event): (r: Session) {
    match event
    case Apply(words) => ApplySession(s, words).0
    case Complete(action, authoritative) => CompleteAction(s, action, authoritative)
    case Consume(consumed) => Acknowledge(s, consumed)
  }

  function After(s: Session, events: seq<Event>): (r: Session)
    decreases |events|
  {
    if events == [] then s else After(Next(s, events[0]), events[1..])
  }

  /** The selection of a session: consistent, split into lasting codes and one-shots. */
  predicate SessionInv(s: Session) {
    && Consistent(s.persistent) && s.persistent <= PERSISTENT && s.deferred <= ONE_SHOT
    && s.completed <= s.armed <= s.deferred
    && (!s.applied ==> s.armed == {})
  }

  lemma SubsetConsistent(whole: Mask, part: Mask)
    requires Consistent(whole) && part <= whole
    ensures Consistent(part)
  {
  }

  lemma BeginInv(persistent: Mask, deferred: Mask, online: bool)
    ensures SessionInv(BeginSession(persistent, deferred, online))
  {
    NormalisedExactly(persistent);
    SubsetConsistent(Normalised(persistent), Normalised(persistent) * PERSISTENT);
  }

  /** One-shots contradict nothing, so a session's whole selection survives normalisation. */
  lemma SelectionSurvives(s: Session)
    requires SessionInv(s)
    ensures Normalised(s.persistent + s.deferred) == s.persistent + s.deferred
  {
    var m := s.persistent + s.deferred;
    forall a, b | a in m && b in m ensures !Conflict(a, b) {
      if a in s.deferred || b in s.deferred { assert a in ONE_SHOT || b in ONE_SHOT; }
    }
    NormalisedExactly(m);
  }

  /** The first application adds exactly the lasting codes and the one-shots; later ones change nothing. */
  lemma AppliesOnce(s: Session, words: Words)
    requires SessionInv(s)
    ensures var (r, w, mask) := ApplySession(s, words);
            && r.applied
            && (s.applied ==> r == s && w == words && mask == {})
            && (!s.applied ==> mask == s.persistent + s.deferred && r.armed == s.deferred
                               && w == Words(words.active + mask, words.unlocked + mask))
  {
    if !s.applied { SelectionSurvives(s); }
  }

  lemma NextKeepsInv(s: Session, event: Event)
    requires SessionInv(s)
    ensures SessionInv(Next(s, event)) && (s.applied || event.Apply? ==> Next(s, event).applied)
    ensures Next(s, event).persistent == s.persistent && Next(s, event).deferred == s.deferred
    ensures s.applied ==> Next(s, event).armed <= s.armed
    ensures !event.Apply? ==> Next(s, event).applied == s.applied
  {
    hide Consistent, Normalised;
    if event.Apply? { AppliesOnce(s, event.words); }
  }

  /** Throughout a session, completed actions are armed ones and armed ones are one-shots of the selection. */
  lemma {:induction false} SessionKeepsInv(s: Session, events: seq<Event>)
    requires SessionInv(s)
    ensures SessionInv(After(s, events))
    ensures After(s, events).persistent == s.persistent && After(s, events).deferred == s.deferred
    ensures s.applied ==> After(s, events).applied && After(s, events).armed <= s.armed
    decreases |events|
  {
    hide SessionInv, Next;
    if events != [] {
      NextKeepsInv(s, events[0]);
      SessionKeepsInv(Next(s, events[0]), events[1..]);
    }
  }

  /** Whether a session has been applied is whether an application has happened. */
  lemma {:induction false} AppliedMeans(s: Session, events: seq<Event>)
    requires SessionInv(s)
    ensures After(s, events).applied <==> s.applied || exists i :: 0 <= i < |events| && events[i].Apply?
    decreases |events|
  {
    hide SessionInv, Next;
    if events != [] {
      var rest := events[1..];
      NextKeepsInv(s, events[0]);
      AppliedMeans(Next(s, events[0]), rest);
      assert forall i :: 0 <= i < |rest| ==> rest[i] == events[i + 1];
    }
  }

  /** Over a whole session, whatever is completed or acknowledged in between, the first application adds exactly the
      selection and every later one adds nothing. */
  lemma AppliedOverSession(s: Session, events: seq<Event>, words: Words)
    requires SessionInv(s) && !s.applied
    ensures var (_, w, mask) := ApplySession(After(s, events), words);
            if exists i :: 0 <= i < |events| && events[i].Apply? then mask == {} && w == words
            else mask == s.persistent + s.deferred && w == Words(words.active + mask, words.unlocked + mask)
  {
    hide SessionInv;
    SessionKeepsInv(s, events);
    AppliedMeans(s, events);
    AppliesOnce(After(s, events), words);
  }

  /** Once the codes are applied, an acknowledged one-shot never completes again in that session. */
  lemma AcknowledgedNeverCompletes(s: Session, consumed: Mask, events: seq<Event>, code: nat)
    requires SessionInv(s) && s.applied && code in consumed
    ensures code !in After(Acknowledge(s, consumed), events).completed
  {
    hide Consistent;
    var a := Acknowledge(s, consumed);
    SessionKeepsInv(a, events);
  }

  /** Acknowledging rules out completion exactly when the codes were already applied or the code is no one-shot of this
      session: an acknowledgement that comes before the application is forgotten by it. */
  lemma AcknowledgedExactly(s: Session, consumed: Mask, code: nat)
    requires SessionInv(s) && code in consumed
    ensures (forall events :: code !in After(Acknowledge(s, consumed), events).completed)
      <==> s.applied || code !in s.deferred
  {
    hide Consistent, Normalised, After;
    var a := Acknowledge(s, consumed);
    if s.applied || code !in s.deferred {
      forall events: seq<Event> ensures code !in After(a, events).completed { SessionKeepsInv(a, events); }
    } else {
      var apply, complete := Apply(Words({}, {})), Complete({code}, true);
      AppliesOnce(a, apply.words);
      assert code in Next(Next(a, apply), complete).completed;
      AfterTwo(a, apply, complete);
    }
  }

  lemma AfterTwo(s: Session, a: Event, b: Event)
    ensures After(s, [a, b]) == Next(Next(s, a), b)
  {
    hide Next;
    assert [a, b][1..] == [b] && [b][1..] == [];
    assert After(Next(s, a), [b]) == Next(Next(s, a), b);
  }

  // ---------------------------------------------------------------------
  // Code by code
  // ---------------------------------------------------------------------

  /** The 24 codes that can be selected: 4 to 28 without 9. */
  predicate Selectable(code: nat) {
    4 <= code <= 28 && code != 9
  }

  predicate OneShot(code: nat) {
    code == 10 || code == 26
  }

  /** The pairs of codes that contradict each other: the two sizes, no bananas and the banana codes, no weapons and the
      weapon codes, and any two balloon colours. */
  lemma ClashesAre(a: nat, b: nat)
    ensures Clash(a, b) <==>
      || (a, b) in {(4, 5), (5, 4), (12, 7), (7, 12), (12, 13), (13, 12), (12, 14), (14, 12)}
      || (a == 11 && 15 <= b <= 20) || (b == 11 && 15 <= a <= 20)
      || (15 <= a <= 19 && 15 <= b <= 19 && a != b)
  {
  }

  /** Enabling adds a selectable code and drops what contradicts it; disabling drops the code. Codes that cannot be
      selected are dropped either way. */
  lemma ChoiceExactly(m: Mask, index: nat, code: nat)
    ensures code in Enable(m, index) <==>
      Selectable(code) && (code == index || (code in m && (Selectable(index) ==> !Clash(code, index))))
    ensures code in Disable(m, index) <==> Selectable(code) && code in m && code != index
  {
  }

  /** No later selectable code of the mask contradicts this one. */
  predicate Unopposed(mask: Mask, code: nat) {
    forall later :: later in mask && Selectable(later) && code < later ==> !Clash(code, later)
  }

  /** The codes of a mask that a session starts with for good. */
  predicate StartsPersistent(persistent: Mask, code: nat) {
    code in persistent && Selectable(code) && !OneShot(code) && Unopposed(persistent, code)
  }

  /** And its one-shots: code 10 only offline. */
  predicate StartsDeferred(deferred: Mask, online: bool, code: nat) {
    code in deferred && OneShot(code) && !(code == 10 && online)
  }

  lemma NormalisedIs(mask: Mask, code: nat)
    ensures code in Normalised(mask) <==> code in mask && Selectable(code) && Unopposed(mask, code)
  {
    hide Normalised, Clash;
    NormalisedKeeps(mask, code);
  }

  /** What a session begins with, code by code: nothing armed, completed or applied. */
  lemma BeginExactly(persistent: Mask, deferred: Mask, online: bool, code: nat)
    ensures var s := BeginSession(persistent, deferred, online);
            && (code in s.persistent <==> StartsPersistent(persistent, code))
            && (code in s.deferred <==> StartsDeferred(deferred, online, code))
            && s.armed == {} && s.completed == {} && !s.applied
  {
    hide Normalised, Unopposed;
    NormalisedIs(persistent, code);
  }

  /** End to end: the first application after a begin adds exactly these codes to both of the game's words and arms
      exactly the one-shots, whatever else happened before it. */
  lemma FirstApplicationExactly(persistent: Mask, deferred: Mask, online: bool, events: seq<Event>, words: Words,
                                code: nat)
    requires forall i :: 0 <= i < |events| ==> !events[i].Apply?
    ensures var (r, w, mask) := ApplySession(After(BeginSession(persistent, deferred, online), events), words);
            var added := StartsPersistent(persistent, code) || StartsDeferred(deferred, online, code);
            && (code in mask <==> added)
            && (code in w.active <==> code in words.active || added)
            && (code in w.unlocked <==> code in words.unlocked || added)
            && (code in r.armed <==> StartsDeferred(deferred, online, code))
            && r.applied
  {
    hide StartsPersistent, StartsDeferred, BeginSession, After, ApplySession, SessionInv;
    var s := BeginSession(persistent, deferred, online);
    BeginInv(persistent, deferred, online);
    BeginExactly(persistent, deferred, online, code);
    SessionKeepsInv(s, events);
    AppliedMeans(s, events);
    AppliesOnce(After(s, events), words);
  }

  /** A completed action counts when it is authoritative and armed; an acknowledgement disarms it and takes it back.
      Neither touches the selection. */
  lemma ActionExactly(s: Session, action: Mask, authoritative: bool, code: nat)
    ensures var c, a := CompleteAction(s, action, authoritative), Acknowledge(s, action);
            && (code in c.completed <==> code in s.completed || (authoritative && code in action && code in s.armed))
            && c.(completed := s.completed) == s
            && (code in a.armed <==> code in s.armed && code !in action)
            && (code in a.completed <==> code in s.completed && code !in action)
            && a.(armed := s.armed, completed := s.completed) == s
  {
  }
}
