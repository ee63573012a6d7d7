/** The patch-pipeline side: bytes of a custom entry replace what the ROM loader read,
    and a header's index fields are pointed at its own track's entries. */
module TrackHooks {
  import opened Basics
  import opened BitPacking
  import opened TrackData
  import opened TrackTables
  import opened TrackSteps
  import opened TrackRegistry

  // ---------------------------------------------------------------------
  // Section numbers and header fields
  // ---------------------------------------------------------------------

  function SectionForData(index: nat): (s: Option<Section>) {
    if index == 2 then Some(Textures3D)
    else if index == 21 then Some(LevelObjectMaps)
    else if index == 23 then Some(LevelHeaders)
    else if index == 25 then Some(LevelNames)
    else if index == 27 then Some(LevelModels)
    else None
  }

  function SectionForTable(index: nat): (s: Option<Section>) {
    if index == 3 then Some(Textures3D)
    else if index == 20 then Some(LevelObjectMaps)
    else if index == 22 then Some(LevelHeaders)
    else if index == 24 then Some(LevelNames)
    else if index == 26 then Some(LevelModels)
    else None
  }

  datatype Fixup = Fixup(at: nat, section: Section, slot: MapSlot)

  const FIXUPS: seq<Fixup> := [
    Fixup(0x34, LevelModels, NoSlot),
    Fixup(0x36, LevelObjectMaps, Collectables),
    Fixup(0xBA, LevelObjectMaps, Structure)
  ]

  /** One header with one field rewritten, when the header holds the field and the track supplies the entry. */
  function Fixed(header: seq<u8>, at: nat, index: int): (r: seq<u8>)
    ensures |r| == |header|
  {
    if |header| <= at + 1 || index < 0 then header
    else header[at := index / 256 % 256][at + 1 := index % 256]
  }

  function FixedBy(s: State, header: seq<u8>, offset: nat, fixup: Fixup): (r: seq<u8>)
    ensures |r| == |header|
  {
    Fixed(header, fixup.at, SiblingIndex(s, LevelHeaders, offset, fixup.section, fixup.slot))
  }

  /** The header as the game receives it. */
  function ServedHeader(s: State, header: seq<u8>, offset: nat): (r: seq<u8>)
    ensures |r| == |header|
  {
    FixedBy(s, FixedBy(s, FixedBy(s, header, offset, FIXUPS[0]), offset, FIXUPS[1]), offset, FIXUPS[2])
  }

  /** What a load of `size` bytes at `offset` delivers instead of ROM bytes, if anything. */
  function Delivered(s: State, section: Section, offset: nat, size: int): (bytes: Option<seq<u8>>) {
    var payload := PayloadFor(s.sections.At(section), offset, size);
    if payload.None? then None
    else if section != LevelHeaders then payload
    else Some(ServedHeader(s, payload.value, offset))
  }

  // ---------------------------------------------------------------------
  // The hook
  // ---------------------------------------------------------------------

  datatype LoadRequest = LoadRequest(section: nat, destination: nat, offset: nat, size: int)

  const RDRAM_LOW: nat := 0x8000_0000
  const RDRAM_HIGH: nat := 0x807F_FFB6
  const NO_REQUEST: LoadRequest := LoadRequest(0xFFFF_FFFF, 0, 0, 0)

  predicate Addressable(address: nat) {
    RDRAM_LOW <= address <= RDRAM_HIGH
  }

  predicate Wanted(request: LoadRequest) {
    SectionForData(request.section).Some? && request.size > 0 && Addressable(request.destination)
  }

  class Loader {
    var load: LoadRequest
    const rdram: array<u8>

    constructor (rdram: array<u8>)
      ensures this.rdram == rdram && load == NO_REQUEST
    {
      this.rdram := rdram;
      load := NO_REQUEST;
    }

    method Begin(section: nat, destination: nat, offset: nat, size: int)
      modifies this
      ensures load == LoadRequest(section, destination, offset, size)
    {
      load := LoadRequest(section, destination, offset, size);
    }

    /** Runs after the ROM bytes are in place: replaces them for a custom offset and consumes the request. */
    method End(registry: Registry)
      requires Wanted(load) ==> load.destination - RDRAM_LOW + load.size <= rdram.Length
      modifies this, rdram
      ensures load == NO_REQUEST
      ensures var r := old(load);
              var bytes := if Wanted(r)
                           then Delivered(registry.Value(), SectionForData(r.section).value, r.offset, r.size)
                           else None;
              if bytes.None? then rdram[..] == old(rdram[..])
              else
                var at := r.destination - RDRAM_LOW;
                && |bytes.value| == r.size
                && rdram[..] == Over(old(rdram[..]), at, bytes.value)
    {
      var request := load;
      load := NO_REQUEST;
      var section := SectionForData(request.section);
      if section.None? || request.size <= 0 || !Addressable(request.destination) {
        return;
      }
      var payload := registry.PayloadAt(section.value, request.offset, request.size);
      if payload.None? {
        return;
      }
      var bytes := payload.value;
      if section.value == LevelHeaders {
        bytes := FixHeader(registry, bytes, request.offset);
      }
      CopyOver(rdram, request.destination - RDRAM_LOW, bytes);
    }
  }

  method FixHeader(registry: Registry, header: seq<u8>, offset: nat) returns (result: seq<u8>)
    ensures result == ServedHeader(registry.Value(), header, offset)
  {
    result := header;
    for i := 0 to 3
      invariant |result| == |header|
      invariant i == 0 ==> result == header
      invariant i == 1 ==> result == FixedBy(registry.Value(), header, offset, FIXUPS[0])
      invariant i == 2 ==>
        result == FixedBy(registry.Value(), FixedBy(registry.Value(), header, offset, FIXUPS[0]), offset, FIXUPS[1])
      invariant i == 3 ==> result == ServedHeader(registry.Value(), header, offset)
    {
      var fixup := FIXUPS[i];
      hide SiblingIndex;
      if |header| > fixup.at + 1 {
        var index := registry.Sibling(LevelHeaders, offset, fixup.section, fixup.slot);
        if index >= 0 {
          result := result[fixup.at := index / 256 % 256][fixup.at + 1 := index % 256];
        }
      }
    }
  }

  // ---------------------------------------------------------------------
  // Which loads are whose
  // ---------------------------------------------------------------------

  /** The game's section numbers: textures keep their data ahead of their table, the level sections behind it. */
  lemma SectionNumbers(index: nat, section: Section)
    ensures SectionForData(index) == Some(section) <==>
      (index, section) in {(2, Textures3D), (21, LevelObjectMaps), (23, LevelHeaders), (25, LevelNames),
                           (27, LevelModels)}
    ensures SectionForTable(index) == Some(section) <==>
      (index, section) in {(3, Textures3D), (20, LevelObjectMaps), (22, LevelHeaders), (24, LevelNames),
                           (26, LevelModels)}
  {
  }

  /** Every load of another section than the headers delivers exactly what the registry serves. */
  lemma OthersDelivered(s: State, section: Section, offset: nat, size: int)
    requires section != LevelHeaders
    ensures Delivered(s, section, offset, size) == PayloadFor(s.sections.At(section), offset, size)
  {
    hide PayloadFor;
  }
}
