/** The table side of the hooks: an extended table is written into game memory and published in place
    of the retail one. */
module TrackTableLoads {
  import opened Basics
  import opened TrackData
  import opened TrackTables
  import opened TrackSteps
  import opened TrackHooks
  import opened TrackRegistry

  const NO_TABLE: nat := 0xFFFF_FFFF

  /** The word that an aligned address names. */
  function WordAt(address: nat): (at: nat)
    requires Addressable(address)
  {
    (address - RDRAM_LOW) / 4
  }

  /** A terminator follows within the sanity limit. */
  predicate Terminated(here: seq<int>) {
    Terminator(here) < SANITY_LIMIT && Terminator(here) < |here|
  }

  /** The table that memory starts with, up to and including its terminator. */
  function TableFrom(here: seq<int>): (table: seq<int>)
    requires Terminated(here)
    ensures |table| == Terminator(here) + 1
  {
    here[..Terminator(here) + 1]
  }

  /** The memory that the game reads its table from afterwards: `here` is memory from the table that its loader
      returned, `behind` what follows the block that its pool gives for the longer table, if it gives one. */
  function Reads(extended: seq<int>, here: seq<int>, behind: Option<seq<int>>): (read: seq<int>) {
    if extended == [] || behind.None? then here else extended + behind.value
  }

  /** The load is one that custom tracks contribute to, and it found a table. */
  predicate Extends(requested: nat, address: nat, mem: seq<int>) {
    && SectionForTable(requested).Some? && Addressable(address)
    && WordAt(address) <= |mem| && Terminated(mem[WordAt(address)..])
  }

  class TableLoader {
    var requested: nat
    const words: array<int>

    constructor (words: array<int>)
      ensures this.words == words && requested == NO_TABLE
    {
      this.words := words;
      requested := NO_TABLE;
    }

    method Begin(index: nat)
      modifies this
      ensures requested == index
    {
      requested := index;
    }

    /** `address` is what the game's loader returned and `block` what its pool gives for the longer table. Memory is
        readable up to the table's terminator, or for as long as the hook looks for one. */
    method End(registry: Registry, address: nat, block: nat, found: seq<Track>, saved: Option<string>)
      returns (published: nat)
      requires SectionForTable(requested).Some? && Addressable(address) ==>
        WordAt(address) <= words.Length && ReadableTable(Some(words[WordAt(address)..]))
      requires Extends(requested, address, words[..]) && Addressable(block) ==>
        var section, start := SectionForTable(requested).value, Rescanned(registry.Value(), found, saved);
        WordAt(block) + |BuildResult(start, section, Some(TableFrom(words[..][WordAt(address)..])))| <= words.Length
      modifies this, words, registry
      ensures requested == NO_TABLE
      ensures var start := Rescanned(old(registry.Value()), found, saved);
              if !Extends(old(requested), address, old(words[..])) then
                published == address && words[..] == old(words[..]) && registry.Value() == old(registry.Value())
              else
                var section, here := SectionForTable(old(requested)).value, old(words[..])[WordAt(address)..];
                var extended := BuildResult(start, section, Some(TableFrom(here)));
                && registry.Value() == BuildStep(start, section, Some(TableFrom(here)))
                && (if extended == [] || !Addressable(block) then published == address && words[..] == old(words[..])
                    else published == block && words[..] == Over(old(words[..]), WordAt(block), extended))
                && Addressable(published) && WordAt(published) <= words.Length
                && words[..][WordAt(published)..] == Reads(extended, here,
                     if Addressable(block) then Some(old(words[..])[WordAt(block) + |extended|..]) else None)
    {
      hide BuildStep, BuildResult, Rescanned, Over, Terminator, Reads;
      var index := requested;
      requested := NO_TABLE;
      var section := SectionForTable(index);
      if section.None? || !Addressable(address) {
        return address;
      }
      ghost var here := words[..][WordAt(address)..];
      assert here == words[WordAt(address)..];
      var retail := ReadTable(words, WordAt(address));
      if retail == [] || retail[|retail| - 1] != -1 {
        return address;
      }
      TableIsRead(here);
      var extended := registry.BuildExtendedTable(section.value, Some(retail), found, saved);
      PublishedWords(words[..], WordAt(address), if Addressable(block) then Some(WordAt(block)) else None, extended);
      if extended == [] || !Addressable(block) {
        return address;
      }
      CopyOver(words, WordAt(block), extended);
      return block;
    }
  }

  method ReadTable(words: array<int>, at: nat) returns (retail: seq<int>)
    requires at <= words.Length && ReadableTable(Some(words[at..]))
    ensures retail != [] && retail[|retail| - 1] == -1 <==> Terminated(words[at..])
    ensures Terminated(words[at..]) ==> retail == TableFrom(words[at..])
  {
    ghost var rest := words[at..];
    ghost var end := Terminator(rest);
    hide Terminator;
    retail := [];
    for index := 0 to SANITY_LIMIT
      invariant |retail| == index <= end && index <= |rest| && retail == rest[..index]
    {
      assert words[at + index] == rest[index];
      retail := retail + [words[at + index]];
      if words[at + index] == -1 {
        return;
      }
    }
  }

  /** The table ends with its only terminator. */
  lemma TableIsRead(here: seq<int>)
    requires Terminated(here)
    ensures var table := TableFrom(here);
            Terminator(table) == |table| - 1 == Terminator(here) && ReadableTable(Some(table))
  {
    var table := TableFrom(here);
    assert forall i :: 0 <= i < |table| ==> table[i] == here[i];
    TerminatorUnique(table, |table| - 1);
  }

  /** The words at the published address are what `Reads` says, whatever lies behind the block. */
  lemma PublishedWords(mem: seq<int>, at: nat, block: Option<nat>, extended: seq<int>)
    requires at <= |mem| && (block.Some? ==> block.value + |extended| <= |mem|)
    ensures var behind := if block.Some? then Some(mem[block.value + |extended|..]) else None;
            && (extended == [] || block.None? ==> mem[at..] == Reads(extended, mem[at..], behind))
            && (extended != [] && block.Some? ==>
                  Over(mem, block.value, extended)[block.value..] == Reads(extended, mem[at..], behind))
  {
  }
}
