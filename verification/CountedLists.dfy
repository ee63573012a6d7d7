/** Counted display lists: a block of commands that is validated whole before any of it
    runs, and the bounded interpreter that runs it. */
module CountedLists {

  const RDRAM_SIZE: nat := 0x0080_0000
  const COMMAND_SIZE: nat := 8
  const MAX_NESTED: nat := 32
  const DISPLAY_LIST: nat := 0x06
  const END_DISPLAY_LIST: nat := 0xB8
  const COUNTED_DISPLAY_LIST: nat := 0x07
  const SET_TEXTURE_IMAGE: nat := 0xFD

  datatype Command = Command(w0: nat, w1: nat)

  /** What a handler does to the command pointer: leaves or moves it, or clears it and rejects the task. */
  datatype Outcome = Goes(to: int) | Rejects

  /** Memory, segment resolution, the handler table and the handlers' behaviour, which may depend on
      everything run before. */
  datatype Env = Env(
    ram: int -> Command, physical: nat -> nat, handled: nat -> bool, outcome: (seq<int>, int) -> Outcome)

  function Opcode(c: Command): (op: nat) {
    c.w0 / 0x100_0000 % 256
  }

  /** The 24-bit physical address of a call's target, 8-byte aligned. */
  function Target(env: Env, c: Command): (at: nat) {
    env.physical(c.w1) % 0x100_0000 / 8 * 8
  }

  predicate Branches(c: Command) {
    c.w0 / 0x1_0000 % 2 != 0
  }

  predicate SafeOpcode(op: nat) {
    op in {0xE6, 0xE7, 0xE8, 0xEF, 0xF0, 0xF2, 0xF3, 0xF4, 0xF5, 0xF8, 0xF9, 0xFA, 0xFB, 0xFC, 0xFD}
  }

  /** A command that may appear in a counted block. */
  predicate SafeCommand(env: Env, at: int) {
    var c := env.ram(at);
    && SafeOpcode(Opcode(c)) && env.handled(Opcode(c))
    && (Opcode(c) == SET_TEXTURE_IMAGE ==> c.w1 < 0x100_0000)
  }

  /** The handlers of the safe opcodes take no extra words: they stay on the command or reject the task. */
  ghost predicate SafeHandlersStay(env: Env) {
    forall trace: seq<int>, at: int :: SafeOpcode(Opcode(env.ram(at))) ==>
      env.outcome(trace, at) == Goes(at) || env.outcome(trace, at) == Rejects
  }

  /** The `n` commands of a block, in order. */
  function Block(start: int, n: nat): (addresses: seq<int>)
    ensures |addresses| == n
  {
    seq(n, i => start + COMMAND_SIZE * i)
  }

  lemma BlockNext(start: int, n: nat)
    ensures Block(start, n + 1) == Block(start, n) + [start + COMMAND_SIZE * n]
  {
  }

  predicate InRam(at: int) {
    0 <= at <= RDRAM_SIZE - COMMAND_SIZE
  }

  /** `count` commands in a row that may appear in a counted block, wherever they lie. */
  ghost predicate SafeList(env: Env, start: int, count: nat) {
    SafeHandlersStay(env) && forall i :: 0 <= i < count ==> SafeCommand(env, start + COMMAND_SIZE * i)
  }

  /** No handler rejects the task. */
  ghost predicate NoneRejects(env: Env) {
    forall trace: seq<int>, at: int :: env.outcome(trace, at).Goes?
  }

  /** A command of a safe list neither calls nor returns, is handled and stays in place unless it rejects the task. */
  lemma SafeStep(env: Env, start: int, count: nat, i: nat, trace: seq<int>)
    requires SafeList(env, start, count) && i < count
    ensures var at := start + COMMAND_SIZE * i;
            && Opcode(env.ram(at)) != DISPLAY_LIST && Opcode(env.ram(at)) != END_DISPLAY_LIST
            && env.handled(Opcode(env.ram(at)))
            && (env.outcome(trace, at) == Goes(at) || env.outcome(trace, at) == Rejects)
            && (NoneRejects(env) ==> env.outcome(trace, at) == Goes(at))
  {
    hide Opcode;
    assert SafeCommand(env, start + COMMAND_SIZE * i);
  }

  /** How many commands of a straight list are fetched: it stops behind the first one that does not lie in RDRAM. */
  function Fetches(start: int, count: nat): (n: nat)
    requires InRam(start)
    ensures n <= count
  {
    var limit := (RDRAM_SIZE - start) / COMMAND_SIZE + 1;
    if count < limit then count else limit
  }

  /** What was run, and whether that ended in a rejection. */
  datatype Ran = Ran(trace: seq<int>, rejected: bool)

  /** Where a call or branch goes: one word ahead of its target, as the pointer is stepped on afterwards. */
  predicate CallRefused(env: Env, c: Command, stack: seq<int>) {
    Target(env, c) > RDRAM_SIZE - COMMAND_SIZE || (!Branches(c) && |stack| >= MAX_NESTED)
  }

  /** The interpreter from any point: the pointer, the words consumed so far, the calls to return to and what was run.
      */
  function Interpreted(env: Env, at: int, consumed: nat, count: nat, stack: seq<int>, trace: seq<int>): (r: Ran)
    decreases count - consumed
  {
    if consumed >= count then Ran(trace, false)
    else
      var c, now := env.ram(at), trace + [at];
      if Opcode(c) == DISPLAY_LIST then
        if CallRefused(env, c, stack) then Ran(now, true)
        else Stepped(env, at, Target(env, c) - COMMAND_SIZE, consumed, count,
                     if Branches(c) then stack else stack + [at], now)
      else if Opcode(c) == END_DISPLAY_LIST then
        if stack == [] then Ran(now, false)
        else Stepped(env, at, stack[|stack| - 1], consumed, count, stack[..|stack| - 1], now)
      else if !env.handled(Opcode(c)) then Ran(trace, true)
      else if env.outcome(trace, at) == Rejects then Ran(now, true)
      else Stepped(env, at, env.outcome(trace, at).to, consumed, count, stack, now)
  }

  /** The pointer has moved and is stepped on, if it still lies in RDRAM. */
  function Stepped(env: Env, before: int, to: int, consumed: nat, count: nat, stack: seq<int>,
                   trace: seq<int>): (r: Ran)
    requires consumed < count
    decreases count - consumed, 0
  {
    if !InRam(to) then Ran(trace, true)
    else Interpreted(env, to + COMMAND_SIZE, consumed + Words(before, to), count, stack, trace)
  }

  lemma OneCommand(env: Env, at: int, consumed: nat, count: nat, stack: seq<int>, trace: seq<int>)
    requires consumed < count
    ensures var c, now := env.ram(at), trace + [at];
            Interpreted(env, at, consumed, count, stack, trace)
            == if Opcode(c) == DISPLAY_LIST then
                 if CallRefused(env, c, stack) then Ran(now, true)
                 else Stepped(env, at, Target(env, c) - COMMAND_SIZE, consumed, count,
                              if Branches(c) then stack else stack + [at], now)
               else if Opcode(c) == END_DISPLAY_LIST then
                 if stack == [] then Ran(now, false)
                 else Stepped(env, at, stack[|stack| - 1], consumed, count, stack[..|stack| - 1], now)
               else if !env.handled(Opcode(c)) then Ran(trace, true)
               else if env.outcome(trace, at) == Rejects then Ran(now, true)
               else Stepped(env, at, env.outcome(trace, at).to, consumed, count, stack, now)
  {
    hide Opcode, Target, Branches, Stepped;
  }

  lemma OneStep(env: Env, before: int, to: int, consumed: nat, count: nat, stack: seq<int>, trace: seq<int>)
    requires consumed < count
    ensures Stepped(env, before, to, consumed, count, stack, trace)
         == if !InRam(to) then Ran(trace, true)
            else Interpreted(env, to + COMMAND_SIZE, consumed + Words(before, to), count, stack, trace)
  {
    hide Interpreted, Words;
  }

  lemma AllConsumed(env: Env, count: nat)
    ensures forall at, consumed: nat, stack, trace :: consumed >= count ==>
      Interpreted(env, at, consumed, count, stack, trace) == Ran(trace, false)
  {
  }

  /** Runs at most `count` commands from `start`, following calls and returns of its own. Nothing beyond the word behind
      RDRAM is ever fetched; a straight list is fetched inside RDRAM throughout exactly when it lies there. */
  method RunCommands(env: Env, start: int, count: nat) returns (trace: seq<int>, rejected: bool, fetched: seq<int>)
    requires InRam(start)
    ensures Ran(trace, rejected) == Interpreted(env, start, 0, count, [], [])
    ensures trace <= fetched && |fetched| <= count
    ensures forall i :: 0 <= i < |fetched| ==> 0 <= fetched[i] <= RDRAM_SIZE
    ensures SafeList(env, start, count) ==>
      trace == fetched == Block(start, |trace|) && (!rejected ==> |trace| == count)
    ensures SafeList(env, start, count) && NoneRejects(env) ==>
      && |fetched| == Fetches(start, count)
      && (rejected <==> start + COMMAND_SIZE * count > RDRAM_SIZE)
      && ((forall i :: 0 <= i < |fetched| ==> InRam(fetched[i])) <==> start + COMMAND_SIZE * count <= RDRAM_SIZE)
  {
    hide SafeList, NoneRejects, Opcode, Target, Branches, Block, Fetches, Words, Interpreted,
      Stepped;
    AllConsumed(env, count);
    trace, rejected, fetched := [], false, [];
    var consumed, command := 0, start;
    var returnStack: seq<int> := [];
    ghost var safe := SafeList(env, start, count);
    ghost var smooth := safe && NoneRejects(env);
    while consumed < count
      invariant 0 <= command <= RDRAM_SIZE
      invariant Interpreted(env, command, consumed, count, returnStack, trace)
             == Interpreted(env, start, 0, count, [], [])
      invariant trace == fetched && |trace| <= consumed && |trace| <= count
      invariant forall i :: 0 <= i < |fetched| ==> 0 <= fetched[i] <= RDRAM_SIZE
      invariant forall i :: 0 <= i < |returnStack| ==> 0 <= returnStack[i] <= RDRAM_SIZE
      invariant safe ==>
        consumed == |trace| && trace == Block(start, consumed) && command == start + COMMAND_SIZE * consumed
      invariant !rejected
      decreases count - consumed
    {
      var before := command;
      OneCommand(env, command, consumed, count, returnStack, trace);
      if safe {
        SafeStep(env, start, count, consumed, trace);
        BlockNext(start, consumed);
      }
      fetched := fetched + [command];
      var opcode := Opcode(env.ram(command));
      if opcode == DISPLAY_LIST {
        trace := trace + [command];
        var branch, target := Branches(env.ram(command)), Target(env, env.ram(command));
        if target > RDRAM_SIZE - COMMAND_SIZE || (!branch && |returnStack| >= MAX_NESTED) {
          rejected := true;
          break;
        }
        if !branch {
          returnStack := returnStack + [command];
        }
        command := target - COMMAND_SIZE;
      } else if opcode == END_DISPLAY_LIST {
        trace := trace + [command];
        if returnStack == [] {
          break;
        }
        command := returnStack[|returnStack| - 1];
        returnStack := returnStack[..|returnStack| - 1];
      } else {
        if !env.handled(opcode) {
          rejected := true;
          break;
        }
        var outcome := env.outcome(trace, command);
        trace := trace + [command];
        if outcome == Rejects {
          rejected := true;
          break;
        }
        command := outcome.to;
      }
      OneStep(env, before, command, consumed, count, returnStack, trace);
      if !InRam(command) {
        rejected := true;
        break;
      }
      var words := Words(before, command);
      consumed := consumed + words;
      command := command + COMMAND_SIZE;
    }
    if smooth { StraightFetches(start, count, |fetched|, rejected); }
  }

  /** How many command words a handler used up, as far as the pointer shows. */
  function Words(before: int, after: int): (n: nat)
    ensures n >= 1 && (before == after ==> n == 1)
  {
    var advance := after - before;
    if 0 <= advance <= 4 * COMMAND_SIZE && advance % COMMAND_SIZE == 0 then 1 + advance / COMMAND_SIZE else 1
  }

  /** Where a straight list stops: at its own end, or behind the first command outside RDRAM. */
  lemma StraightFetches(start: int, count: nat, n: nat, rejected: bool)
    requires InRam(start) && n <= count
    requires !rejected ==> n == count && (n > 0 ==> InRam(start + COMMAND_SIZE * (n - 1)))
    requires rejected ==>
      n > 0 && !InRam(start + COMMAND_SIZE * (n - 1)) && (n > 1 ==> InRam(start + COMMAND_SIZE * (n - 2)))
    ensures n == Fetches(start, count) && (rejected <==> start + COMMAND_SIZE * count > RDRAM_SIZE)
    ensures (forall i :: 0 <= i < n ==> InRam(Block(start, n)[i])) <==> start + COMMAND_SIZE * count <= RDRAM_SIZE
  {
    if rejected { assert !InRam(Block(start, n)[n - 1]); }
  }

  datatype Verdict = Verdict(ran: seq<int>, rejected: bool)

  predicate BlockAccepted(env: Env, nested: nat, address: nat, count: nat) {
    && nested < MAX_NESTED && count != 0 && address != 0 && address + COMMAND_SIZE * count <= RDRAM_SIZE
    && forall i :: 0 <= i < count ==> SafeCommand(env, address + COMMAND_SIZE * i)
  }

  /** A counted list runs nothing unless all of it is valid; then it runs exactly its own commands in order,
      or a prefix of them when a handler rejects the task. It never leaves the block. */
  method CountedDisplayList(env: Env, nested: nat, address: nat, count: nat) returns (v: Verdict)
    requires SafeHandlersStay(env) && count < 256
    ensures !BlockAccepted(env, nested, address, count) ==> v == Verdict([], true)
    ensures BlockAccepted(env, nested, address, count) ==>
      |v.ran| <= count && v.ran == Block(address, |v.ran|) && (!v.rejected ==> |v.ran| == count)
    ensures forall i :: 0 <= i < |v.ran| ==> InRam(v.ran[i]) && SafeOpcode(Opcode(env.ram(v.ran[i])))
  {
    if nested >= MAX_NESTED || count == 0 || address == 0 || address + COMMAND_SIZE * count > RDRAM_SIZE {
      return Verdict([], true);
    }
    for i := 0 to count
      invariant forall k :: 0 <= k < i ==> SafeCommand(env, address + COMMAND_SIZE * k)
    {
      var c := env.ram(address + COMMAND_SIZE * i);
      if !SafeOpcode(Opcode(c)) || !env.handled(Opcode(c)) || (Opcode(c) == SET_TEXTURE_IMAGE && c.w1 >= 0x100_0000) {
        assert !SafeCommand(env, address + COMMAND_SIZE * i);
        return Verdict([], true);
      }
    }
    var ran, rejected, _ := RunCommands(env, address, count);
    v := Verdict(ran, rejected);
    forall i | 0 <= i < |v.ran| ensures InRam(v.ran[i]) && SafeOpcode(Opcode(env.ram(v.ran[i]))) {
      assert SafeCommand(env, address + COMMAND_SIZE * i);
    }
  }

  /** No safe opcode calls, returns or opens another counted list. */
  lemma SafeOpcodesNeverBranch(op: nat)
    requires SafeOpcode(op)
    ensures op != DISPLAY_LIST && op != END_DISPLAY_LIST && op != COUNTED_DISPLAY_LIST
  {
  }

  /** The fifteen opcodes that may appear in a counted block: loads and tile settings, syncs and colours. */
  lemma SafeOpcodesAre(op: nat)
    ensures SafeOpcode(op) <==> 0xE6 <= op <= 0xE8 || 0xEF <= op <= 0xF0 || 0xF2 <= op <= 0xF5 || 0xF8 <= op <= 0xFD
  {
  }

  // ---------------------------------------------------------------------
  // Calls and returns
  // ---------------------------------------------------------------------

  /** `n` commands in a row in RDRAM that neither call nor return, and whose handlers stay on them. */
  ghost predicate Straight(env: Env, start: int, n: nat) {
    forall i :: 0 <= i < n ==> StaysAt(env, start + COMMAND_SIZE * i)
  }

  ghost predicate StaysAt(env: Env, at: int) {
    && InRam(at) && env.handled(Opcode(env.ram(at)))
    && Opcode(env.ram(at)) != DISPLAY_LIST && Opcode(env.ram(at)) != END_DISPLAY_LIST
    && forall trace: seq<int> :: env.outcome(trace, at) == Goes(at)
  }

  lemma StayingStep(env: Env, at: int, consumed: nat, count: nat, stack: seq<int>, trace: seq<int>)
    requires StaysAt(env, at) && consumed < count
    ensures Interpreted(env, at, consumed, count, stack, trace)
         == Interpreted(env, at + COMMAND_SIZE, consumed + 1, count, stack, trace + [at])
  {
  }

  /** A straight stretch is run in order. */
  lemma {:induction false} StraightRuns(env: Env, at: int, n: nat, consumed: nat, count: nat, stack: seq<int>,
                                        trace: seq<int>)
    requires Straight(env, at, n) && consumed + n <= count
    ensures Interpreted(env, at, consumed, count, stack, trace)
         == Interpreted(env, at + COMMAND_SIZE * n, consumed + n, count, stack, trace + Block(at, n))
    decreases n
  {
    hide Interpreted, StaysAt;
    if n == 0 {
      assert trace + Block(at, 0) == trace;
    } else {
      StraightRuns(env, at, n - 1, consumed, count, stack, trace);
      var last := at + COMMAND_SIZE * (n - 1);
      StayingStep(env, last, consumed + n - 1, count, stack, trace + Block(at, n - 1));
      BlockNext(at, n - 1);
      assert trace + Block(at, n) == trace + Block(at, n - 1) + [last];
    }
  }

  /** `at` holds a call of a list at `target`, which has `n` straight commands and then an end. */
  ghost predicate Calls(env: Env, at: int, target: nat, n: nat) {
    && InRam(at) && Opcode(env.ram(at)) == DISPLAY_LIST && !Branches(env.ram(at)) && Target(env, env.ram(at)) == target
    && COMMAND_SIZE <= target && Straight(env, target, n) && InRam(target + COMMAND_SIZE * n)
    && Opcode(env.ram(target + COMMAND_SIZE * n)) == END_DISPLAY_LIST
  }

  /** The words that a call, its callee and the return count for. */
  function CallWords(at: int, target: nat, n: nat): (words: nat) {
    Words(at, target - COMMAND_SIZE) + n + Words(target + COMMAND_SIZE * n, at)
  }

  lemma CallStep(env: Env, at: int, target: nat, n: nat, consumed: nat, count: nat, stack: seq<int>, trace: seq<int>)
    requires Calls(env, at, target, n) && |stack| < MAX_NESTED && consumed < count
    ensures Interpreted(env, at, consumed, count, stack, trace)
         == Interpreted(env, target, consumed + Words(at, target - COMMAND_SIZE), count, stack + [at], trace + [at])
  {
    hide Words, Straight, Opcode, Branches;
    assert InRam(target) by { TargetInRam(env, at, target, n); }
  }

  lemma TargetInRam(env: Env, at: int, target: nat, n: nat)
    requires Calls(env, at, target, n)
    ensures InRam(target)
  {
  }

  lemma ReturnStep(env: Env, end: int, caller: int, consumed: nat, count: nat, stack: seq<int>, trace: seq<int>)
    requires Opcode(env.ram(end)) == END_DISPLAY_LIST && InRam(caller) && consumed < count
    ensures Interpreted(env, end, consumed, count, stack + [caller], trace)
         == Interpreted(env, caller + COMMAND_SIZE, consumed + Words(end, caller), count, stack, trace + [end])
  {
    hide Words, Opcode;
    assert (stack + [caller])[..|stack|] == stack;
  }

  /** A call runs its callee in order, then its end, and goes on behind the call with the same calls open. */
  lemma CallReturns(env: Env, at: int, target: nat, n: nat, consumed: nat, count: nat, stack: seq<int>, trace: seq<int>)
    requires Calls(env, at, target, n) && |stack| < MAX_NESTED && consumed + CallWords(at, target, n) <= count
    ensures Interpreted(env, at, consumed, count, stack, trace)
         == Interpreted(env, at + COMMAND_SIZE, consumed + CallWords(at, target, n), count, stack,
                        trace + [at] + Block(target, n) + [target + COMMAND_SIZE * n])
  {
    hide Interpreted, Words, Straight, Opcode, Branches;
    CallStep(env, at, target, n, consumed, count, stack, trace);
    var inside := consumed + Words(at, target - COMMAND_SIZE);
    StraightRuns(env, target, n, inside, count, stack + [at], trace + [at]);
    ReturnStep(env, target + COMMAND_SIZE * n, at, inside + n, count, stack, trace + [at] + Block(target, n));
  }

  /** A branch goes to its target for good; an end with no open call ends the list; a call too deep, beyond RDRAM or to
      its first word is rejected. */
  lemma JumpsExactly(env: Env, at: int, consumed: nat, count: nat, stack: seq<int>, trace: seq<int>)
    requires consumed < count
    ensures var c := env.ram(at);
            var r := Interpreted(env, at, consumed, count, stack, trace);
            && (Opcode(c) == 0xB8 && stack == [] ==> r == Ran(trace + [at], false))
            && (Opcode(c) == 0x06 ==>
                  if Target(env, c) == 0 || Target(env, c) > 0x7F_FFF8 || (!Branches(c) && |stack| >= 32)
                  then r == Ran(trace + [at], true)
                  else r == Interpreted(env, Target(env, c), consumed + Words(at, Target(env, c) - 8), count,
                                        if Branches(c) then stack else stack + [at], trace + [at]))
  {
    hide Words, Opcode, Branches;
    TargetAligned(env, env.ram(at));
  }

  lemma TargetAligned(env: Env, c: Command)
    ensures Target(env, c) % 8 == 0 && Target(env, c) <= env.physical(c.w1) % 0x100_0000 < Target(env, c) + 8
  {
  }
}
